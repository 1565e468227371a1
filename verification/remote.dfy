/** The GitHub remote and the `org/name` pair the setup script reads from the
    working copy's `origin` (lib/scripts/bootstrap.ts, `getRemote` and
    `getRepo`). The output of `git config --get remote.origin.url`, already
    trimmed, is the parameter `remote`. */
module GitRemote {
  import opened JsStrings

  const SshPrefix: string := "git@github.com:"
  const HttpsHost: string := "https://github.com"
  const HttpsPrefix: string := HttpsHost + "/"

  /** `getRemote`: an SSH remote on github.com becomes the HTTPS URL of the
      same path, trimmed; any other remote is kept as it is. */
  function GithubRemote(remote: string): (r: string)
    ensures StartsWith(remote, SshPrefix) ==> r == HttpsPrefix + Trim(remote[|SshPrefix|..])
    ensures !StartsWith(remote, SshPrefix) ==> r == remote
  {
    if StartsWith(remote, SshPrefix) then
      RemovePrefix(remote, SshPrefix);
      HttpsPrefix + Trim(RemoveFirst(remote, SshPrefix))
    else
      remote
  }

  /** Rewriting a remote twice changes nothing more: the HTTPS form is not
      an SSH remote. */
  lemma GithubRemoteIdempotent(remote: string)
    ensures GithubRemote(GithubRemote(remote)) == GithubRemote(remote)
  {
    if StartsWith(remote, SshPrefix) {
      HttpsKept(Trim(remote[|SshPrefix|..]));
    }
  }

  /** What `getRepo` returns for the rewritten remote `url`: the piece
      before the last "/" (the string "undefined" when there is none), a
      "/", and the last piece with its first ".git" removed. */
  function RepoOf(url: string): string {
    var parts := Split(url, "/");
    var org := if |parts| >= 2 then parts[|parts| - 2] else "undefined";
    org + "/" + RemoveFirst(Last(parts), ".git")
  }

  /** `getRepo`: pops the name, then the org, off the split remote. */
  method Repo(remote: string) returns (r: string)
    ensures r == RepoOf(GithubRemote(remote))
  {
    var url := GithubRemote(remote);
    var arr := Split(url, "/");
    var name := RemoveFirst(arr[|arr| - 1], ".git");
    arr := arr[..|arr| - 1];
    var org := "undefined";
    if |arr| > 0 {
      org := arr[|arr| - 1];
      arr := arr[..|arr| - 1];
    }
    r := org + "/" + name;
  }

  /** A remote without any "/" has no org: `arr.pop()` gives `undefined`,
      which the template literal spells out. */
  lemma RepoWithoutSlash(url: string)
    requires '/' !in url
    ensures RepoOf(url) == "undefined/" + RemoveFirst(url, ".git")
  {
    IncludesChar(url, '/');
    SplitNone(url, "/");
  }

  /** The repository's own URL, SSH or HTTPS, with or without ".git",
      gives back `org/name`. */
  lemma RepoOfGithubRemote(org: string, name: string, suffix: string)
    requires '/' !in org && '/' !in name && !Includes(name, ".git")
    requires org == [] || !IsWhite(org[0])
    requires suffix == ".git" || (suffix == [] && (name == [] || !IsWhite(name[|name| - 1])))
    ensures RepoOf(GithubRemote(SshPrefix + org + "/" + name + suffix)) == org + "/" + name
    ensures RepoOf(GithubRemote(HttpsPrefix + org + "/" + name + suffix)) == org + "/" + name
  {
    var last := name + suffix;
    LastPiece(name, suffix);
    var tail := org + "/" + last;
    TailTrimmed(org, last);
    Regroup(SshPrefix, org, "/", name, suffix);
    Regroup(HttpsPrefix, org, "/", name, suffix);
    SshRewrite(tail);
    HttpsKept(tail);
    RepoOfPath(HttpsHost, org, last);
  }

  lemma Regroup<T>(p: seq<T>, org: seq<T>, slash: seq<T>, name: seq<T>, suffix: seq<T>)
    ensures p + org + slash + name + suffix == p + (org + slash + (name + suffix))
  {
  }

  /** The last piece of the path: no "/", and ".git" removed leaves the name. */
  lemma LastPiece(name: string, suffix: string)
    requires '/' !in name && !Includes(name, ".git")
    requires suffix == ".git" || (suffix == [] && (name == [] || !IsWhite(name[|name| - 1])))
    ensures '/' !in name + suffix
    ensures RemoveFirst(name + suffix, ".git") == name
    ensures name + suffix == [] || !IsWhite((name + suffix)[|name + suffix| - 1])
  {
    StripGit(name, suffix);
  }

  lemma TailTrimmed(org: string, last: string)
    requires org == [] || !IsWhite(org[0])
    requires last == [] || !IsWhite(last[|last| - 1])
    ensures Trim(org + "/" + last) == org + "/" + last
  {
    var tail := org + "/" + last;
    assert tail[0] == if org == [] then '/' else org[0];
    assert tail[|tail| - 1] == if last == [] then '/' else last[|last| - 1];
    TrimOfTrimmed(tail);
  }

  lemma SshRewrite(tail: string)
    ensures GithubRemote(SshPrefix + tail) == HttpsPrefix + Trim(tail)
  {
    var s := SshPrefix + tail;
    assert s[..|SshPrefix|] == SshPrefix;
    assert s[|SshPrefix|..] == tail;
  }

  lemma HttpsKept(tail: string)
    ensures GithubRemote(HttpsPrefix + tail) == HttpsPrefix + tail
  {
    var s := HttpsPrefix + tail;
    assert s[0] == 'h' && SshPrefix[0] == 'g';
    assert !StartsWith(s, SshPrefix) by {
      if |SshPrefix| <= |s| {
        assert s[..|SshPrefix|][0] == s[0];
      }
    }
  }

  /** Under any host, the last two "/"-pieces are the org and the name. */
  lemma RepoOfPath(host: string, org: string, last: string)
    requires '/' !in org && '/' !in last
    ensures RepoOf(host + "/" + (org + "/" + last)) == org + "/" + RemoveFirst(last, ".git")
  {
    LastTwoPieces(host, org, last);
  }

  lemma LastTwoPieces(host: string, org: string, last: string)
    requires '/' !in org && '/' !in last
    ensures var parts := Split(host + "/" + (org + "/" + last), "/");
      |parts| >= 2 && parts[|parts| - 2] == org && Last(parts) == last
  {
    var pieces := Split(host, "/") + ([org] + [last]);
    assert Split(host + "/" + (org + "/" + last), "/") == pieces by {
      SlashFree(org);
      SlashFree(last);
      assert NoSelfOverlap("/");
      SplitAppend(host, "/", org + "/" + last);
      SplitFirst(org, "/", last);
      SplitNone(last, "/");
    }
    LastTwo(Split(host, "/"), org, last);
  }

  lemma SlashFree(x: string)
    requires '/' !in x
    ensures !Includes(x, "/")
  {
    IncludesChar(x, '/');
    assert "/" == ['/'];
  }

  lemma LastTwo<T>(a: seq<T>, x: T, y: T)
    ensures var p := a + ([x] + [y]); |p| >= 2 && p[|p| - 2] == x && Last(p) == y
  {
  }

  lemma StripGit(name: string, suffix: string)
    requires !Includes(name, ".git")
    requires suffix == ".git" || suffix == []
    ensures RemoveFirst(name + suffix, ".git") == name
  {
    if suffix == [] {
      assert name + suffix == name;
    } else {
      assert NoSelfOverlap(".git");
      FirstOccurrence(name, ".git", []);
      assert name + ".git" + [] == name + suffix;
    }
  }

  /** As written, `replace(".git", "")` removes the FIRST ".git" of the
      last piece, so a name that itself contains ".git" (a GitHub Pages
      repository such as `octocat.github.io`, with `x` = "octocat" and `y` =
      "hub.io") loses that one and keeps its ".git" suffix. */
  lemma GitInsideNameMangled(org: string, x: string, y: string)
    requires '/' !in org && '/' !in x && '/' !in y
    requires !Includes(x, ".git") && y != [] && y[0] != '.'
    ensures RepoOf(HttpsPrefix + org + "/" + (x + ".git" + y) + ".git") == org + "/" + (x + y + ".git")
    ensures org + "/" + (x + y + ".git") != org + "/" + (x + ".git" + y)
  {
    var last := x + ".git" + y + ".git";
    assert HttpsPrefix + org + "/" + (x + ".git" + y) + ".git" == HttpsHost + "/" + (org + "/" + last);
    RepoOfPath(HttpsHost, org, last);
    FirstGitRemoved(x, y);
    Mangled(org, x, y);
  }

  lemma FirstGitRemoved(x: string, y: string)
    requires !Includes(x, ".git")
    ensures RemoveFirst(x + ".git" + y + ".git", ".git") == x + y + ".git"
  {
    assert NoSelfOverlap(".git");
    var last := x + ".git" + y + ".git";
    assert last == x + ".git" + (y + ".git");
    FirstOccurrence(x, ".git", y + ".git");
    assert last[..|x|] == x;
    assert last[|x| + 4..] == y + ".git";
  }

  lemma Mangled(org: string, x: string, y: string)
    requires y != [] && y[0] != '.'
    ensures org + "/" + (x + y + ".git") != org + "/" + (x + ".git" + y)
  {
    var i := |org| + 1 + |x|;
    assert (org + "/" + (x + y + ".git"))[i] == y[0];
    assert (org + "/" + (x + ".git" + y))[i] == '.';
  }

  predicate EndsWithGit(s: string) {
    |s| >= 4 && s[|s| - 4..] == ".git"
  }

  /** The evident intent of that step: drop a ".git" suffix, and only a
      suffix. */
  function StripGitSuffix(s: string): string {
    if EndsWithGit(s) then s[..|s| - 4] else s
  }

  /** `getRepo` with the suffix removed instead of the first ".git". */
  function RepoOfFixed(url: string): string {
    var parts := Split(url, "/");
    var org := if |parts| >= 2 then parts[|parts| - 2] else "undefined";
    org + "/" + StripGitSuffix(Last(parts))
  }

  lemma StripGitSuffixOfName(name: string, suffix: string)
    requires suffix == ".git" || (suffix == [] && !EndsWithGit(name))
    ensures StripGitSuffix(name + suffix) == name
  {
    var s := name + suffix;
    if suffix == [] {
      assert s == name;
    } else {
      assert s[|s| - 4..] == ".git";
      assert s[..|s| - 4] == name;
    }
  }

  /** With the suffix removed, the repository's own URL, SSH or HTTPS, with
      or without ".git", gives back `org/name` for every name, ".git" inside
      it or not. */
  lemma FixedRepoOfGithubRemote(org: string, name: string, suffix: string)
    requires '/' !in org && '/' !in name
    requires org == [] || !IsWhite(org[0])
    requires suffix == ".git" || (suffix == [] && !EndsWithGit(name) && (name == [] || !IsWhite(name[|name| - 1])))
    ensures RepoOfFixed(GithubRemote(SshPrefix + org + "/" + name + suffix)) == org + "/" + name
    ensures RepoOfFixed(GithubRemote(HttpsPrefix + org + "/" + name + suffix)) == org + "/" + name
  {
    var last := name + suffix;
    assert '/' !in last;
    assert last == [] || !IsWhite(last[|last| - 1]) by {
      if suffix != [] {
        assert last[|last| - 1] == 't';
      }
    }
    var tail := org + "/" + last;
    TailTrimmed(org, last);
    Regroup(SshPrefix, org, "/", name, suffix);
    Regroup(HttpsPrefix, org, "/", name, suffix);
    SshRewrite(tail);
    HttpsKept(tail);
    FixedRepoOfPath(HttpsHost, org, last);
    StripGitSuffixOfName(name, suffix);
  }

  lemma FixedRepoOfPath(host: string, org: string, last: string)
    requires '/' !in org && '/' !in last
    ensures RepoOfFixed(host + "/" + (org + "/" + last)) == org + "/" + StripGitSuffix(last)
  {
    LastTwoPieces(host, org, last);
    RepoOfFixedParts(host + "/" + (org + "/" + last), org, last);
  }

  lemma RepoOfFixedParts(url: string, org: string, last: string)
    requires var parts := Split(url, "/");
      |parts| >= 2 && parts[|parts| - 2] == org && Last(parts) == last
    ensures RepoOfFixed(url) == org + "/" + StripGitSuffix(last)
  {
  }
}
