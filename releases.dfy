/** The menu-bar script that shows the latest tag of each configured GitHub
    repository next to the version currently deployed: one request per
    repository, then one two-line entry per repository in the configured
    order, or one diagnostic line when anything fails. */
module Releases {
  import opened JsText
  import opened Helpers

  /** The menu title: a heading, then the menu separator. */
  const Title: string := "Releases\n---"

  const NoCurrentVersion: string := "No Current Version"

  /** What the then-handler prints when parsing fails: a thrown
      `SyntaxError` or `TypeError` carries no `statusCode`. */
  const ErrorUndefined: string := "Error undefined\n"

  /** The fields of one tag object that are read. */
  datatype Tag = Tag(name: string, commitUrl: string)

  /** One entry of `URLS`. `currentVersion` is what its `currentVersion`
      callback resolves to, `None` when the entry has no callback. */
  datatype Repo = Repo(url: string, name: string, currentVersion: Option<string>)

  // ---------------------------------------------------------------------------
  // getContent

  /** This script's request headers: the user name as user agent, an
      `Authorization` header only when both credentials are set, and no
      cache directive. */
  function ReleaseHeaders(username: string, password: string): (h: map<string, string>)
    ensures "Content-Type" in h && h["Content-Type"] == "application/json"
    ensures "User-Agent" in h && h["User-Agent"] == username
    ensures "Cache-Control" !in h
    ensures ("Authorization" in h) <==> username != "" && password != ""
    ensures "Authorization" in h ==> h["Authorization"] == BasicAuth(username, password)
  {
    var base := map["Content-Type" := "application/json", "User-Agent" := username];
    if username != "" && password != "" then base["Authorization" := BasicAuth(username, password)]
    else base
  }

  /** The same headers as the shared helper sends for these credentials,
      less its cache directive. */
  lemma HeadersAreHelperLessCache(url: string, username: string, password: string)
    ensures ReleaseHeaders(username, password)
      == Headers(Normalised(url, username, password, username, map[])) - {"Cache-Control"}
  {
  }

  function TagsRequest(repo: Repo, username: string, password: string): (req: Request)
    ensures req.url == repo.url && req.headers == ReleaseHeaders(username, password)
    ensures req.scheme == Https <==> StartsWith(repo.url, "https")
  {
    Request(SchemeFor(repo.url), repo.url, ReleaseHeaders(username, password))
  }

  /** What one request resolves to: the joined body and the entry it was
      made for. */
  datatype Fetched = Fetched(jsonString: string, repo: Repo)

  /** The intended outcome of one request: a status outside 200..299
      rejects with the response, a failed connection rejects, anything else
      resolves with the body. */
  function FetchTags(repo: Repo, username: string, password: string, network: Request -> Reply)
    : Result<Fetched>
  {
    match network(TagsRequest(repo, username, password))
    case ConnectionError => Err(TransportError)
    case Response(status, hs, chunks) =>
      if !IsSuccess(status) then Err(StatusError(status, hs)) else Ok(Fetched(Join(chunks, ""), repo))
  }

  /** The request settles exactly as the shared helper's would: the same
      errors, and the same body on success. */
  lemma FetchTagsSettlesLikeHelper(repo: Repo, username: string, password: string, network: Request -> Reply)
    ensures var r := FetchTags(repo, username, password, network);
            var h := Settle(network(TagsRequest(repo, username, password)), map[]);
      && (r.Ok? <==> h.Ok?)
      && (r.Err? ==> h == Err(r.error))
      && (r.Ok? ==> r.value.repo == repo && h.value["body"] == Text(r.value.jsonString))
  {
  }

  /** The outcome as written: the connection-error listener evaluates an
      out-of-scope `response` and throws, as in the shared helper. */
  function FetchTagsAsWritten(repo: Repo, username: string, password: string, network: Request -> Reply)
    : Settlement<Fetched>
  {
    AsWritten(network(TagsRequest(repo, username, password)), FetchTags(repo, username, password, network))
  }

  lemma TagsConnectionErrorIsUncaught(repo: Repo, username: string, password: string, network: Request -> Reply)
    requires network(TagsRequest(repo, username, password)).ConnectionError?
    ensures FetchTagsAsWritten(repo, username, password, network) == Uncaught
    ensures FetchTags(repo, username, password, network) == Err(TransportError)
  {
  }

  // ---------------------------------------------------------------------------
  // Promise.all

  /** All requests, joined: the results in the order of `URLS`, or the
      first failure in that order. */
  function FetchAll(repos: seq<Repo>, fetch: Repo -> Result<Fetched>): Result<seq<Fetched>> {
    if repos == [] then Ok([])
    else
      match FetchAll(repos[..|repos| - 1], fetch)
      case Err(e) => Err(e)
      case Ok(init) =>
        match fetch(repos[|repos| - 1])
        case Err(e) => Err(e)
        case Ok(f) => Ok(init + [f])
  }

  /** The join succeeds exactly when every request does, and then holds
      each request's result at its place. */
  lemma {:induction false} FetchAllSucceeds(repos: seq<Repo>, fetch: Repo -> Result<Fetched>)
    ensures FetchAll(repos, fetch).Ok? <==> forall i :: 0 <= i < |repos| ==> fetch(repos[i]).Ok?
    ensures FetchAll(repos, fetch).Ok? ==>
      |FetchAll(repos, fetch).value| == |repos|
      && forall i :: 0 <= i < |repos| ==> Ok(FetchAll(repos, fetch).value[i]) == fetch(repos[i])
    decreases |repos|
  {
    if repos != [] {
      var init := repos[..|repos| - 1];
      FetchAllSucceeds(init, fetch);
      assert forall i :: 0 <= i < |init| ==> init[i] == repos[i];
    }
  }

  /** A failed join reports a failing request, and every request before it
      succeeded. */
  lemma {:induction false} FetchAllFirstError(repos: seq<Repo>, fetch: Repo -> Result<Fetched>)
      returns (k: nat)
    requires FetchAll(repos, fetch).Err?
    ensures k < |repos| && fetch(repos[k]) == Err(FetchAll(repos, fetch).error)
    ensures forall i :: 0 <= i < k ==> fetch(repos[i]).Ok?
    decreases |repos|
  {
    var init := repos[..|repos| - 1];
    if FetchAll(init, fetch).Err? {
      k := FetchAllFirstError(init, fetch);
    } else {
      FetchAllSucceeds(init, fetch);
      k := |repos| - 1;
    }
  }

  lemma FetchAllStep(repos: seq<Repo>, fetch: Repo -> Result<Fetched>, i: nat)
    requires i < |repos|
    ensures FetchAll(repos[..i + 1], fetch) ==
      match FetchAll(repos[..i], fetch)
      case Err(e) => Err(e)
      case Ok(init) => (match fetch(repos[i]) case Err(e) => Err(e) case Ok(f) => Ok(init + [f]))
  {
    assert repos[..i + 1][..i] == repos[..i];
  }

  /** Once a prefix fails, so does the whole list, with the same error. */
  lemma {:induction false} FetchAllStops(repos: seq<Repo>, fetch: Repo -> Result<Fetched>, i: nat)
    requires i <= |repos| && FetchAll(repos[..i], fetch).Err?
    ensures FetchAll(repos, fetch) == FetchAll(repos[..i], fetch)
    decreases |repos| - i
  {
    if i == |repos| {
      assert repos[..i] == repos;
    } else {
      FetchAllStep(repos, fetch, i);
      FetchAllStops(repos, fetch, i + 1);
    }
  }

  /** The join as written: a request whose connection fails never settles,
      because its error listener throws, and the script ends there; only
      when every request settles does `Promise.all` settle, with every
      result or the first failure. */
  function JoinAsWritten(repos: seq<Repo>, settle: Repo -> Settlement<Fetched>): Settlement<seq<Fetched>> {
    if repos == [] then Settled(Ok([]))
    else
      match JoinAsWritten(repos[..|repos| - 1], settle)
      case Uncaught => Uncaught
      case Settled(init) =>
        match settle(repos[|repos| - 1])
        case Uncaught => Uncaught
        case Settled(last) =>
          Settled(match init
                  case Err(e) => Err(e)
                  case Ok(vs) =>
                    match last
                    case Err(e) => Err(e)
                    case Ok(v) => Ok(vs + [v]))
  }

  /** The script ends without settling exactly when some request does not
      settle. */
  lemma {:induction false} JoinUncaught(repos: seq<Repo>, settle: Repo -> Settlement<Fetched>)
    ensures JoinAsWritten(repos, settle).Uncaught?
      <==> exists i :: 0 <= i < |repos| && settle(repos[i]).Uncaught?
    decreases |repos|
  {
    if repos != [] {
      var init := repos[..|repos| - 1];
      JoinUncaught(init, settle);
      assert forall i :: 0 <= i < |init| ==> init[i] == repos[i];
      if exists i :: 0 <= i < |repos| && settle(repos[i]).Uncaught? {
        var i :| 0 <= i < |repos| && settle(repos[i]).Uncaught?;
        if i < |init| {
          assert settle(init[i]).Uncaught?;
        }
      }
    }
  }

  /** When every request settles, the join as written settles like the
      intended join of the results. */
  lemma {:induction false} JoinSettles(repos: seq<Repo>, settle: Repo -> Settlement<Fetched>,
                                       fetch: Repo -> Result<Fetched>)
    requires forall i :: 0 <= i < |repos| ==> settle(repos[i]) == Settled(fetch(repos[i]))
    ensures JoinAsWritten(repos, settle) == Settled(FetchAll(repos, fetch))
    decreases |repos|
  {
    if repos != [] {
      var init := repos[..|repos| - 1];
      assert forall i :: 0 <= i < |init| ==> init[i] == repos[i];
      JoinSettles(init, settle, fetch);
    }
  }

  lemma JoinStep(repos: seq<Repo>, settle: Repo -> Settlement<Fetched>, i: nat)
    requires i < |repos|
    ensures JoinAsWritten(repos[..i + 1], settle) ==
      match JoinAsWritten(repos[..i], settle)
      case Uncaught => Uncaught
      case Settled(init) =>
        match settle(repos[i])
        case Uncaught => Uncaught
        case Settled(last) =>
          Settled(match init
                  case Err(e) => Err(e)
                  case Ok(vs) =>
                    match last
                    case Err(e) => Err(e)
                    case Ok(v) => Ok(vs + [v]))
  {
    assert repos[..i + 1][..i] == repos[..i];
  }

  /** One request per entry of `URLS`, awaited together. */
  method JoinEach(repos: seq<Repo>, settle: Repo -> Settlement<Fetched>) returns (r: Settlement<seq<Fetched>>)
    ensures r == JoinAsWritten(repos, settle)
  {
    r := Settled(Ok([]));
    for i := 0 to |repos|
      invariant r == JoinAsWritten(repos[..i], settle)
    {
      JoinStep(repos, settle, i);
      var s := settle(repos[i]);
      match r {
        case Uncaught =>
        case Settled(init) =>
          match s {
            case Uncaught =>
              r := Uncaught;
            case Settled(last) =>
              if init.Ok? && last.Ok? {
                r := Settled(Ok(init.value + [last.value]));
              } else if init.Ok? {
                r := Settled(Err(last.error));
              }
          }
      }
    }
    assert repos[..|repos|] == repos;
  }

  // ---------------------------------------------------------------------------
  // parseTags

  /** The link to the commit on the web site: the API host and path prefix
      and the plural `commits/` are each rewritten once, at their first
      occurrence. */
  function WebUrl(commitUrl: string): string {
    ReplaceFirst(ReplaceFirst(commitUrl, "api.github.com/repos", "github.com"), "commits/", "commit/")
  }

  /** A commit URL as the API reports it becomes the commit's web page,
      provided no earlier `commits/` precedes the one before the hash. */
  lemma WebUrlOfApiUrl(path: string, sha: string)
    requires IndexOf("https://" + "github.com" + "/" + path + "/", "commits/").None?
    ensures WebUrl("https://" + "api.github.com/repos" + "/" + path + "/" + "commits/" + sha)
      == "https://" + "github.com" + "/" + path + "/" + "commit/" + sha
  {
    var h, api, gh, c := "https://", "api.github.com/repos", "github.com", "commits/";
    var x := h + api + "/" + path + "/" + c + sha;
    var tail := "/" + path + "/" + c + sha;
    assert x == h + api + tail by {
      Regroup(h + api, "/", path, "/", c, sha);
    }
    ApiHostReplaced(tail);
    var a := h + gh + "/" + path + "/";
    assert h + gh + tail == a + c + sha by {
      Regroup(h + gh, "/", path, "/", c, sha);
    }
    CommitsReplaced(a, sha);
    assert WebUrl(x) == ReplaceFirst(ReplaceFirst(x, api, gh), c, "commit/");
  }

  lemma Regroup(a: string, b: string, c: string, d: string, e: string, f: string)
    ensures a + b + c + d + e + f == a + (b + c + d + e + f)
  {
  }

  /** The scheme cannot hold the API host, so the host right after it is
      the first occurrence. */
  lemma ApiHostReplaced(tail: string)
    ensures ReplaceFirst("https://" + "api.github.com/repos" + tail, "api.github.com/repos", "github.com")
      == "https://" + "github.com" + tail
  {
    var api := "api.github.com/repos";
    var s := "https://" + api + tail;
    forall j | 0 <= j < 8 ensures !OccursAt(s, api, j) {
      assert s[j] != 'a' && s[j..j + |api|][0] == s[j];
    }
    ReplaceFirstAt("https://", api, tail, "github.com");
  }

  /** `commits/` ends in the only `/` it contains, so after a prefix that
      ends in `/` and holds no `commits/`, the first occurrence is the one
      right after the prefix. */
  lemma CommitsReplaced(a: string, sha: string)
    requires a != [] && a[|a| - 1] == '/' && IndexOf(a, "commits/").None?
    ensures ReplaceFirst(a + "commits/" + sha, "commits/", "commit/") == a + "commit/" + sha
  {
    var pat := "commits/";
    var t := a + pat + sha;
    forall j | 0 <= j < |a| ensures !OccursAt(t, pat, j) {
      if j + |pat| <= |a| {
        assert !OccursAt(a, pat, j);
        assert t[j..j + |pat|] == a[j..j + |pat|];
      } else {
        var k := |a| - 1 - j;
        assert t[j..j + |pat|][k] == t[|a| - 1] == '/';
        assert pat[k] != '/';
      }
    }
    ReplaceFirstAt(a, pat, sha, "commit/");
  }

  /** `current || "No Current Version"`: an empty version counts as none. */
  function CurrentText(current: Option<string>): (r: string)
    ensures r != ""
    ensures current.None? || current.value == "" ==> r == NoCurrentVersion
    ensures current.Some? && current.value != "" ==> r == current.value
  {
    if current.Some? && current.value != "" then current.value else NoCurrentVersion
  }

  /** The first line of an entry: the repository and its newest tag, linked
      to the tag's commit. */
  function TagLine(name: string, tagName: string, href: string): string {
    name + ": " + tagName + " | href=" + href
  }

  /** The second line: the current version, shown as the alternate item. */
  function VersionLine(current: Option<string>): string {
    CurrentText(current) + " | alternate=true"
  }

  /** The entry of one repository, linking the tag to `href`. */
  function Row(name: string, tagName: string, href: string, current: Option<string>): string {
    TagLine(name, tagName, href) + "\n" + VersionLine(current) + "\n"
  }

  /** The entry for the newest tag, linked to its commit page. */
  function TagRow(name: string, tag: Tag, current: Option<string>): string {
    Row(name, tag.name, WebUrl(tag.commitUrl), current)
  }

  /** `parseTags(result, current)`: `parse` stands for `JSON.parse` and
      reading the fields, `None` when either throws. `shift()` takes the
      first tag; on an empty list the next field access throws. */
  function ParseTags(result: Fetched, current: Option<string>, parse: string -> Option<seq<Tag>>)
    : (r: Option<string>)
    ensures r.None? <==> parse(result.jsonString).None? || parse(result.jsonString).value == []
    ensures r.Some? ==> r.value == TagRow(result.repo.name, parse(result.jsonString).value[0], current)
  {
    match parse(result.jsonString)
    case None => None
    case Some(tags) => if tags == [] then None else Some(TagRow(result.repo.name, tags[0], current))
  }

  /** Only the first tag of the list is shown; the rest do not matter. */
  lemma FirstTagOnly(name: string, tags: seq<Tag>, more: seq<Tag>, current: Option<string>, parse: string -> Option<seq<Tag>>, json: string)
    requires tags != [] && parse(json) == Some(tags + more)
    ensures ParseTags(Fetched(json, Repo("", name, None)), current, parse)
      == Some(TagRow(name, tags[0], current))
  {
  }

  /** An entry is two lines: the linked tag, then the current version. */
  lemma RowLines(name: string, tagName: string, href: string, current: Option<string>)
    requires '\n' !in name && '\n' !in tagName && '\n' !in href
    requires current.Some? ==> '\n' !in current.value
    ensures Split(Row(name, tagName, href, current), '\n')
      == [TagLine(name, tagName, href), VersionLine(current), ""]
  {
    TwoLines(TagLine(name, tagName, href), VersionLine(current));
  }

  /** The commit link keeps an entry at two lines. */
  lemma TagRowLines(name: string, tag: Tag, current: Option<string>)
    requires '\n' !in name && '\n' !in tag.name && '\n' !in tag.commitUrl
    requires current.Some? ==> '\n' !in current.value
    ensures Split(TagRow(name, tag, current), '\n')
      == [TagLine(name, tag.name, WebUrl(tag.commitUrl)), VersionLine(current), ""]
  {
    WebUrlOneLine(tag.commitUrl);
    RowLines(name, tag.name, WebUrl(tag.commitUrl), current);
  }

  lemma WebUrlOneLine(commitUrl: string)
    requires '\n' !in commitUrl
    ensures '\n' !in WebUrl(commitUrl)
  {
    NoBreakReplaced(commitUrl, "api.github.com/repos", "github.com");
    NoBreakReplaced(ReplaceFirst(commitUrl, "api.github.com/repos", "github.com"), "commits/", "commit/");
  }

  lemma TwoLines(first: string, second: string)
    requires '\n' !in first && '\n' !in second
    ensures Split(first + "\n" + second + "\n", '\n') == [first, second, ""]
  {
    assert Join([first, second, ""], "\n") == first + "\n" + second + "\n";
    SplitJoin([first, second, ""], '\n');
  }

  lemma NoBreakReplaced(s: string, pat: string, rep: string)
    requires '\n' !in s && '\n' !in rep
    ensures '\n' !in ReplaceFirst(s, pat, rep)
  {
    match IndexOf(s, pat)
    case None =>
    case Some(i) =>
      assert ReplaceFirst(s, pat, rep) == s[..i] + rep + s[i + |pat|..];
      assert '\n' !in s[..i] && '\n' !in s[i + |pat|..];
  }

  /** Every entry ends its last line with `alternate=true` and a line
      break. */
  predicate EndsEntry(s: string) {
    |s| >= 2 && s[|s| - 2] == 'e' && s[|s| - 1] == '\n'
  }

  lemma RowEnds(name: string, tagName: string, href: string, current: Option<string>)
    ensures EndsEntry(Row(name, tagName, href, current))
  {
    AlternateEnds(TagLine(name, tagName, href) + "\n" + CurrentText(current));
  }

  lemma AlternateEnds(before: string)
    ensures EndsEntry(before + " | alternate=true" + "\n")
  {
  }

  /** Every entry the parser produces ends that way. */
  lemma EntriesEnd(parse: string -> Option<seq<Tag>>)
    ensures forall f :: EntryOf(parse)(f).Some? ==> EndsEntry(EntryOf(parse)(f).value)
  {
    forall f | EntryOf(parse)(f).Some? ensures EndsEntry(EntryOf(parse)(f).value) {
      var tag := parse(f.jsonString).value[0];
      RowEnds(f.repo.name, tag.name, WebUrl(tag.commitUrl), f.repo.currentVersion);
    }
  }

  // ---------------------------------------------------------------------------
  // the then-handler

  /** What the loop of the handler builds from the results, one entry per
      result in order: the concatenated entries, or `None` as soon as one
      result cannot be parsed. */
  function Collect(results: seq<Fetched>, entry: Fetched -> Option<string>): Option<string> {
    if results == [] then Some("")
    else
      match Collect(results[..|results| - 1], entry)
      case None => None
      case Some(body) =>
        match entry(results[|results| - 1])
        case None => None
        case Some(row) => Some(body + row)
  }

  /** The entry of one result, with the current version it was fetched
      with. */
  function EntryOf(parse: string -> Option<seq<Tag>>): Fetched -> Option<string> {
    (result: Fetched) => ParseTags(result, result.repo.currentVersion, parse)
  }

  /** The body exists exactly when every result parses, and is then the
      entries one after another. */
  lemma {:induction false} CollectSucceeds(results: seq<Fetched>, entry: Fetched -> Option<string>)
    ensures Collect(results, entry).Some? <==> forall i :: 0 <= i < |results| ==> entry(results[i]).Some?
    ensures Collect(results, entry).Some? ==>
      Collect(results, entry).value
        == Flatten(seq(|results|, i requires 0 <= i < |results| && entry(results[i]).Some? => entry(results[i]).value))
    decreases |results|
  {
    if results != [] {
      var n := |results|;
      var init := results[..n - 1];
      CollectSucceeds(init, entry);
      assert forall i :: 0 <= i < |init| ==> init[i] == results[i];
      if Collect(results, entry).Some? {
        var rows := seq(n, i requires 0 <= i < n && entry(results[i]).Some? => entry(results[i]).value);
        var initRows := seq(n - 1, i requires 0 <= i < n - 1 && entry(init[i]).Some? => entry(init[i]).value);
        assert rows[..n - 1] == initRows;
        FlattenStep(rows, n - 1);
        assert rows[..n] == rows;
      }
    }
  }

  lemma CollectStep(results: seq<Fetched>, entry: Fetched -> Option<string>, i: nat)
    requires i < |results|
    ensures Collect(results[..i + 1], entry) ==
      match Collect(results[..i], entry)
      case None => None
      case Some(body) => (match entry(results[i]) case None => None case Some(row) => Some(body + row))
  {
    assert results[..i + 1][..i] == results[..i];
  }

  /** Once a prefix fails to parse, the whole list does. */
  lemma {:induction false} CollectStops(results: seq<Fetched>, entry: Fetched -> Option<string>, i: nat)
    requires i <= |results| && Collect(results[..i], entry).None?
    ensures Collect(results, entry).None?
    decreases |results| - i
  {
    if i == |results| {
      assert results[..i] == results;
    } else {
      CollectStep(results, entry, i);
      CollectStops(results, entry, i + 1);
    }
  }

  /** Entries appear in the order of the results. */
  lemma {:induction false} CollectAppend(a: seq<Fetched>, b: seq<Fetched>, entry: Fetched -> Option<string>)
    requires Collect(a, entry).Some? && Collect(b, entry).Some?
    ensures Collect(a + b, entry) == Some(Collect(a, entry).value + Collect(b, entry).value)
    decreases |b|
  {
    if b == [] {
      assert a + b == a;
      assert Collect(a, entry).value + Collect(b, entry).value == Collect(a, entry).value;
    } else {
      var ab := a + b;
      var init := b[..|b| - 1];
      assert ab[..|ab| - 1] == a + init && ab[|ab| - 1] == b[|b| - 1];
      assert Collect(init, entry).Some? && entry(b[|b| - 1]).Some?;
      CollectAppend(a, init, entry);
      var ca, ci, r := Collect(a, entry).value, Collect(init, entry).value, entry(b[|b| - 1]).value;
      assert Collect(b, entry).value == ci + r;
      assert Collect(ab, entry) == Some(ca + ci + r);
      assert ca + ci + r == ca + (ci + r);
    }
  }

  /** Entries that all end with `alternate=true` and a line break make a
      body that is empty or ends that way too. */
  lemma {:induction false} CollectEnds(results: seq<Fetched>, entry: Fetched -> Option<string>)
    requires forall f :: entry(f).Some? ==> EndsEntry(entry(f).value)
    requires Collect(results, entry).Some?
    ensures Collect(results, entry).value == "" || EndsEntry(Collect(results, entry).value)
    decreases |results|
  {
    if results != [] {
      CollectEnds(results[..|results| - 1], entry);
    }
  }

  /** What the handler prints: the title and the entries, trimmed, or the
      diagnostic of a failed parse. */
  function Handled(results: seq<Fetched>, parse: string -> Option<seq<Tag>>): string {
    match Collect(results, EntryOf(parse))
    case None => ErrorUndefined
    case Some(body) => Trim(Title + "\n" + body) + "\n"
  }

  /** The loop of the handler: each result is parsed, with its current
      version, in order; the first that fails ends the loop. */
  method CollectEach(results: seq<Fetched>, entry: Fetched -> Option<string>) returns (r: Option<string>)
    ensures r == Collect(results, entry)
  {
    var body := "";
    for i := 0 to |results|
      invariant Collect(results[..i], entry) == Some(body)
    {
      CollectStep(results, entry, i);
      var row := entry(results[i]);
      if row.None? {
        CollectStops(results, entry, i + 1);
        return None;
      }
      body := body + row.value;
    }
    assert results[..|results|] == results;
    r := Some(body);
  }

  /** The then-handler: the entries after the title, trimmed, or the
      diagnostic of the catch handler. */
  method Report(results: seq<Fetched>, parse: string -> Option<seq<Tag>>) returns (output: string)
    ensures output == Handled(results, parse)
  {
    var body := CollectEach(results, EntryOf(parse));
    if body.None? {
      return ErrorUndefined;
    }
    var text := Title + "\n" + body.value;
    output := Trim(text) + "\n";
  }

  /** The trim only takes off the line break the last entry ends with, which
      `console.log` puts back: the output is the title and the entries as
      they are. */
  lemma HandledShowsEntries(results: seq<Fetched>, parse: string -> Option<seq<Tag>>)
    requires Collect(results, EntryOf(parse)).Some?
    ensures Handled(results, parse) == Title + "\n" + Collect(results, EntryOf(parse)).value
  {
    EntriesEnd(parse);
    CollectEnds(results, EntryOf(parse));
    TitledBody(Collect(results, EntryOf(parse)).value);
  }

  lemma TitledBody(body: string)
    requires body == "" || EndsEntry(body)
    ensures Trim(Title + "\n" + body) + "\n" == Title + "\n" + body
  {
    if body == "" {
      assert Title + "\n" + body == Title + "\n";
      TrimLine(Title);
    } else {
      var x := Title + "\n" + body[..|body| - 1];
      assert Title + "\n" + body == x + "\n";
      assert x[|x| - 1] == 'e';
      TrimLine(x);
    }
  }

  /** With no repositories configured, only the title is printed. */
  lemma NoRepositories(parse: string -> Option<seq<Tag>>)
    ensures Handled([], parse) == "Releases\n---\n"
  {
    HandledShowsEntries([], parse);
  }

  // ---------------------------------------------------------------------------
  // the catch handler

  /** `_dateFormat(date, fstr)`: the shared helper's format with the
      arguments the other way round, on the local-time fields. */
  function DateFormatOf(date: Date, fstr: string): string {
    DateFormat(fstr, date)
  }

  /** The rate-limit format is the time of day, two digits per field. */
  lemma ClockFormat(d: Date)
    ensures DateFormatOf(d, "%H:%M:%S") == Pad2(d.hours) + ":" + Pad2(d.minutes) + ":" + Pad2(d.seconds)
  {
    var H, M, S := "%H", "%M", "%S";
    assert "%H:%M:%S" == H + (":" + (M + (":" + S)));
    DateFormatToken('H', d);
    DateFormatToken('M', d);
    DateFormatToken('S', d);
    DateFormatLiteral(':', d);
    DateFormatAppend(":", S, d);
    DateFormatAppend(M, ":" + S, d);
    DateFormatAppend(":", M + (":" + S), d);
    DateFormatAppend(H, ":" + (M + (":" + S)), d);
  }

  /** The reset time of a rate limit. `clock` maps the header's text, in
      seconds since the epoch, to the local date, or to `None` when the text
      is not a number or the header is absent; an invalid date prints `NaN`
      in every field, of which two characters remain. */
  function ResetTime(hs: map<string, string>, clock: string -> Option<Date>): string {
    var when := if "x-ratelimit-reset" in hs then clock(hs["x-ratelimit-reset"]) else None;
    match when
    case None => "aN:aN:aN"
    case Some(d) => DateFormatOf(d, "%H:%M:%S")
  }

  /** The catch handler's line for a failed request. */
  function ErrorLine(e: FetchError, clock: string -> Option<Date>): (r: string)
    ensures e.StatusError? && e.status == 403 ==>
      r == "Rate Limit Exceeded Until:  " + ResetTime(e.responseHeaders, clock) + "\n"
    ensures e.StatusError? && e.status != 403 ==> r == "Error " + IntToString(e.status) + "\n"
    ensures e.TransportError? ==> r == ErrorUndefined
  {
    match e
    case StatusError(status, hs) =>
      if status == 403 then "Rate Limit Exceeded Until:  " + ResetTime(hs, clock) + "\n"
      else "Error " + IntToString(status) + "\n"
    case TransportError => ErrorUndefined
  }

  /** A rate-limited request reports the local time of the reset. */
  lemma RateLimitShowsReset(hs: map<string, string>, clock: string -> Option<Date>, d: Date)
    requires "x-ratelimit-reset" in hs && clock(hs["x-ratelimit-reset"]) == Some(d)
    ensures ErrorLine(StatusError(403, hs), clock)
      == "Rate Limit Exceeded Until:  " + Pad2(d.hours) + ":" + Pad2(d.minutes) + ":" + Pad2(d.seconds) + "\n"
  {
    ClockFormat(d);
  }

  /** Without a usable reset header the time prints as `aN:aN:aN`. */
  lemma RateLimitWithoutReset(hs: map<string, string>, clock: string -> Option<Date>)
    requires "x-ratelimit-reset" !in hs
    ensures ErrorLine(StatusError(403, hs), clock) == "Rate Limit Exceeded Until:  aN:aN:aN\n"
  {
  }

  // ---------------------------------------------------------------------------
  // the script

  function TagsFetch(username: string, password: string, network: Request -> Reply): Repo -> Result<Fetched> {
    repo => FetchTags(repo, username, password, network)
  }

  function TagsSettle(username: string, password: string, network: Request -> Reply): Repo -> Settlement<Fetched> {
    repo => FetchTagsAsWritten(repo, username, password, network)
  }

  /** What the script prints after the warning: the diagnostic of the first
      failed request, or the handler's output. */
  function Outcome(fetched: Result<seq<Fetched>>, parse: string -> Option<seq<Tag>>, clock: string -> Option<Date>)
    : string
  {
    match fetched
    case Err(e) => ErrorLine(e, clock)
    case Ok(results) => Handled(results, parse)
  }

  /** What the script prints after the warning, as written: nothing when a
      request never settles, otherwise what the handlers print. */
  function Printed(joined: Settlement<seq<Fetched>>, parse: string -> Option<seq<Tag>>, clock: string -> Option<Date>)
    : string
  {
    match joined
    case Uncaught => ""
    case Settled(fetched) => Outcome(fetched, parse, clock)
  }

  /** The whole script, with the network, the JSON parser and the clock as
      parameters. */
  method Run(username: string, password: string, repos: seq<Repo>, network: Request -> Reply,
             parse: string -> Option<seq<Tag>>, clock: string -> Option<Date>)
    returns (output: string)
    ensures output == Banner(username)
      + Printed(JoinAsWritten(repos, TagsSettle(username, password, network)), parse, clock)
  {
    output := Banner(username);
    var joined := JoinEach(repos, TagsSettle(username, password, network));
    var rest: string := "";
    match joined {
      case Uncaught =>
      case Settled(Err(e)) =>
        rest := ErrorLine(e, clock);
      case Settled(Ok(results)) =>
        rest := Report(results, parse);
    }
    output := output + rest;
  }

  /** A failed connection on any request leaves only the warning. */
  lemma ConnectionErrorEndsRun(username: string, password: string, repos: seq<Repo>, network: Request -> Reply,
                               parse: string -> Option<seq<Tag>>, clock: string -> Option<Date>, i: nat)
    requires i < |repos| && network(TagsRequest(repos[i], username, password)).ConnectionError?
    ensures Printed(JoinAsWritten(repos, TagsSettle(username, password, network)), parse, clock) == ""
  {
    assert TagsSettle(username, password, network)(repos[i]).Uncaught?;
    JoinUncaught(repos, TagsSettle(username, password, network));
  }

  /** When every request gets a response, the script prints what the
      intended one does: the first failure's line, or the entries. */
  lemma ResponsesPrintAsIntended(username: string, password: string, repos: seq<Repo>, network: Request -> Reply,
                                 parse: string -> Option<seq<Tag>>, clock: string -> Option<Date>)
    requires forall i :: 0 <= i < |repos| ==> network(TagsRequest(repos[i], username, password)).Response?
    ensures Printed(JoinAsWritten(repos, TagsSettle(username, password, network)), parse, clock)
      == Outcome(FetchAll(repos, TagsFetch(username, password, network)), parse, clock)
  {
    var settle := TagsSettle(username, password, network);
    var fetch := TagsFetch(username, password, network);
    forall i | 0 <= i < |repos| ensures settle(repos[i]) == Settled(fetch(repos[i])) {
      assert settle(repos[i]) == AsWritten(network(TagsRequest(repos[i], username, password)), fetch(repos[i]));
    }
    JoinSettles(repos, settle, fetch);
  }

  /** With the script as shipped (no credentials, no repositories) the
      output is the warning and the bare title. */
  lemma AsShipped(network: Request -> Reply, parse: string -> Option<seq<Tag>>, clock: string -> Option<Date>)
    ensures Banner("") + Printed(JoinAsWritten([], TagsSettle("", "", network)), parse, clock)
      == "Missing User-Agent\n" + "Releases\n---\n"
  {
    NoRepositories(parse);
  }
}
