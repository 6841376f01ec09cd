/** `github-pull-requests.5m.js`: one block of rows per configured
    repository listing its open pull requests, under a title that carries the
    total count. The network and `JSON.parse` are parameters. */
module PullRequests {
  import opened JsText
  import opened Helpers

  /** The fields of one element of the pulls list the script reads. */
  datatype Pull = Pull(number: nat, title: string, login: string, htmlUrl: string, repoFullName: string)

  /** One configured repository: the pulls endpoint and the fallback name. */
  datatype Repo = Repo(url: string, name: string)

  /** The user agent the script is configured with. */
  const UserAgent: string := "Krakaw"

  /** The configured menu-bar title. */
  const Title: string := "{count} Pending PR's"

  // ---------------------------------------------------------------------------
  // parsePulls

  /** `--#${number} - ${title} - ${user.login} | href=${html_url}`. */
  function Row(p: Pull): string {
    "--#" + NatToString(p.number) + " - " + p.title + " - " + p.login + " | href=" + p.htmlUrl
  }

  function Rows(pulls: seq<Pull>): (r: seq<string>)
    ensures |r| == |pulls| && forall i :: 0 <= i < |pulls| ==> r[i] == Row(pulls[i])
  {
    seq(|pulls|, i requires 0 <= i < |pulls| => Row(pulls[i]))
  }

  /** The name the block is labelled with: `repoName` starts as the
      configured name and each pull overwrites it. */
  function RepoName(pulls: seq<Pull>, name: string): string {
    if pulls == [] then name else pulls[|pulls| - 1].repoFullName
  }

  /** `name (count)`, the header line of a block. */
  function Header(repoName: string, count: nat): string {
    repoName + " (" + NatToString(count) + ")"
  }

  /** The text `parsePulls` returns as `result`. */
  function Block(pulls: seq<Pull>, name: string): string {
    "---\n" + Header(RepoName(pulls, name), |pulls|) + "\n" + Join(Rows(pulls), "\n") + "\n"
  }

  /** `parsePulls`: the count, and the rows built by a `map` whose callback
      also rebinds `repoName`. */
  method ParsePulls(pulls: seq<Pull>, name: string) returns (count: nat, result: string)
    ensures count == |pulls|
    ensures result == Block(pulls, name)
  {
    count := |pulls|;
    var repoName := name;
    var rows: seq<string> := [];
    for i := 0 to |pulls|
      invariant rows == Rows(pulls[..i])
      invariant repoName == RepoName(pulls[..i], name)
    {
      repoName := pulls[i].repoFullName;
      rows := rows + [Row(pulls[i])];
    }
    assert pulls[..|pulls|] == pulls;
    result := "---\n" + repoName + " (" + NatToString(count) + ")\n" + Join(rows, "\n") + "\n";
  }

  /** Where every pull belongs to one repository, the block is labelled with
      that repository whatever the configured name. */
  lemma OneRepository(pulls: seq<Pull>, name: string, full: string)
    requires pulls != [] && forall i :: 0 <= i < |pulls| ==> pulls[i].repoFullName == full
    ensures RepoName(pulls, name) == full
  {
  }

  /** An empty list still gives a block, labelled with the configured name
      and the count 0, with an empty row. */
  lemma EmptyBlock(name: string)
    ensures Block([], name) == "---\n" + name + " (0)\n\n"
  {
    assert Rows([]) == [];
  }

  predicate NoLineBreak(s: string) { '\n' !in s }

  lemma DigitsNoLineBreak(s: string)
    requires AllDigits(s)
    ensures NoLineBreak(s)
  {
    forall k | 0 <= k < |s| ensures s[k] != '\n' {
      assert IsDigit(s[k]);
    }
  }

  /** A pull without line breaks in its texts renders as one line. */
  lemma RowIsOneLine(p: Pull)
    requires NoLineBreak(p.title) && NoLineBreak(p.login) && NoLineBreak(p.htmlUrl)
    ensures NoLineBreak(Row(p))
  {
    DigitsNoLineBreak(NatToString(p.number));
  }

  lemma HeaderIsOneLine(repoName: string, count: nat)
    requires NoLineBreak(repoName)
    ensures NoLineBreak(Header(repoName, count))
  {
    DigitsNoLineBreak(NatToString(count));
  }

  predicate PlainPull(p: Pull) {
    NoLineBreak(p.title) && NoLineBreak(p.login) && NoLineBreak(p.htmlUrl) && NoLineBreak(p.repoFullName)
  }

  /** The block is its lines joined by line breaks. */
  lemma BlockIsJoin(pulls: seq<Pull>, name: string)
    requires pulls != []
    ensures Block(pulls, name)
      == Join(["---", Header(RepoName(pulls, name), |pulls|)] + Rows(pulls) + [""], "\n")
  {
    JoinFramed("---", Header(RepoName(pulls, name), |pulls|), Rows(pulls), "\n");
  }

  /** The block's lines: the separator, the header, one row per pull in list
      order, and an empty last piece after the final line break. */
  lemma BlockLines(pulls: seq<Pull>, name: string)
    requires pulls != [] && forall i :: 0 <= i < |pulls| ==> PlainPull(pulls[i])
    ensures Split(Block(pulls, name), '\n')
      == ["---", Header(RepoName(pulls, name), |pulls|)] + Rows(pulls) + [""]
  {
    var rows := Rows(pulls);
    var header := Header(RepoName(pulls, name), |pulls|);
    var parts := ["---", header] + rows + [""];
    BlockIsJoin(pulls, name);
    HeaderIsOneLine(RepoName(pulls, name), |pulls|);
    forall i | 0 <= i < |parts| ensures '\n' !in parts[i] {
      if 2 <= i < |parts| - 1 {
        assert parts[i] == rows[i - 2];
        RowIsOneLine(pulls[i - 2]);
      }
    }
    SplitJoin(parts, '\n');
  }

  // ---------------------------------------------------------------------------
  // the `Promise.all` handler

  /** What one response resolves to: the configured name and the parsed
      pulls list. */
  datatype RepoResult = RepoResult(pulls: seq<Pull>, name: string)

  function TotalCount(results: seq<RepoResult>): nat {
    if results == [] then 0 else TotalCount(results[..|results| - 1]) + |results[|results| - 1].pulls|
  }

  function BlockTexts(results: seq<RepoResult>): (r: seq<string>)
    ensures |r| == |results|
    ensures forall i :: 0 <= i < |results| ==> r[i] == Block(results[i].pulls, results[i].name)
  {
    seq(|results|, i requires 0 <= i < |results| => Block(results[i].pulls, results[i].name))
  }

  /** The blocks one after another. */
  function Blocks(results: seq<RepoResult>): string {
    Flatten(BlockTexts(results))
  }

  /** `TITLE.replace("{count}", count)`. */
  function TitleText(title: string, count: nat): string {
    ReplaceFirst(title, "{count}", NatToString(count))
  }

  /** The handler: add up the counts and concatenate the blocks in the order
      of `URLS`, then put the title with the total in front. The result is
      what `console.log` prints, its line break included. */
  method Summarise(title: string, results: seq<RepoResult>) returns (output: string)
    ensures output == TitleText(title, TotalCount(results)) + "\n" + Blocks(results) + "\n"
  {
    var count := 0;
    var body := "";
    ghost var texts := BlockTexts(results);
    for i := 0 to |results|
      invariant count == TotalCount(results[..i])
      invariant body == Flatten(texts[..i])
    {
      var n, block := ParsePulls(results[i].pulls, results[i].name);
      TotalCountStep(results, i);
      FlattenStep(texts, i);
      count := count + n;
      body := body + block;
    }
    assert results[..|results|] == results && texts[..|results|] == texts;
    body := TitleText(title, count) + "\n" + body;
    output := body + "\n";
  }

  lemma TotalCountStep(results: seq<RepoResult>, i: nat)
    requires i < |results|
    ensures TotalCount(results[..i + 1]) == TotalCount(results[..i]) + |results[i].pulls|
  {
    assert results[..i + 1][..i] == results[..i];
  }

  /** The total is the number of pulls over all repositories, one result at
      a time. */
  lemma TotalCountAppend(a: seq<RepoResult>, b: seq<RepoResult>)
    ensures TotalCount(a + b) == TotalCount(a) + TotalCount(b)
    decreases |b|
  {
    if b != [] {
      var ab := a + b;
      assert ab[..|ab| - 1] == a + b[..|b| - 1];
      TotalCountAppend(a, b[..|b| - 1]);
    } else {
      assert a + b == a;
    }
  }

  /** The blocks appear in the order of the results. */
  lemma BlocksAppend(a: seq<RepoResult>, b: seq<RepoResult>)
    ensures Blocks(a + b) == Blocks(a) + Blocks(b)
  {
    assert BlockTexts(a + b) == BlockTexts(a) + BlockTexts(b);
    FlattenAppend(BlockTexts(a), BlockTexts(b));
  }

  /** The configured title shows the total in front. */
  lemma ConfiguredTitle(count: nat)
    ensures TitleText(Title, count) == NatToString(count) + " Pending PR's"
  {
    assert StartsWith(Title, "{count}");
    ReplaceAtStart(Title, "{count}", NatToString(count));
    assert Title[|"{count}"|..] == " Pending PR's";
  }

  /** A title without the placeholder is printed as it is. */
  lemma TitleWithoutPlaceholder(title: string, count: nat)
    requires IndexOf(title, "{count}").None?
    ensures TitleText(title, count) == title
  {
  }

  // ---------------------------------------------------------------------------
  // getContent

  /** This script's own request headers: no credentials and no cache
      directive. */
  function PullHeaders(): (h: map<string, string>)
    ensures h.Keys == {"Content-Type", "User-Agent"}
    ensures h["Content-Type"] == "application/json" && h["User-Agent"] == UserAgent
  {
    map["Content-Type" := "application/json", "User-Agent" := UserAgent]
  }

  function PullRequest(repo: Repo): (req: Request)
    ensures req.url == repo.url && req.headers == PullHeaders()
    ensures req.scheme == Https <==> StartsWith(repo.url, "https")
  {
    Request(SchemeFor(repo.url), repo.url, PullHeaders())
  }

  /** The parsed pulls of one repository, or `None` when the request fails,
      the status is outside 200..299, or the body is not a pulls list
      (`JSON.parse` or `json.map` throws). `parse` stands for `JSON.parse`
      followed by reading the fields. */
  function FetchPulls(repo: Repo, network: Request -> Reply, parse: string -> Option<seq<Pull>>)
    : (r: Option<RepoResult>)
    ensures r.Some? ==> r.value.name == repo.name
    ensures network(PullRequest(repo)).ConnectionError? ==> r.None?
    ensures network(PullRequest(repo)).Response? && !IsSuccess(network(PullRequest(repo)).status) ==> r.None?
  {
    match network(PullRequest(repo))
    case ConnectionError => None
    case Response(status, _, chunks) =>
      if !IsSuccess(status) then None
      else
        match parse(Join(chunks, ""))
        case None => None
        case Some(pulls) => Some(RepoResult(pulls, repo.name))
  }

  predicate AllFetched(repos: seq<Repo>, network: Request -> Reply, parse: string -> Option<seq<Pull>>) {
    forall i :: 0 <= i < |repos| ==> FetchPulls(repos[i], network, parse).Some?
  }

  function Fetched(repos: seq<Repo>, network: Request -> Reply, parse: string -> Option<seq<Pull>>)
    : (r: seq<RepoResult>)
    requires AllFetched(repos, network, parse)
    ensures |r| == |repos|
    ensures forall i :: 0 <= i < |repos| ==> Some(r[i]) == FetchPulls(repos[i], network, parse)
  {
    seq(|repos|, i requires 0 <= i < |repos| => FetchPulls(repos[i], network, parse).value)
  }

  /** The whole script: one request per repository; if any fails the output
      is `Error`, otherwise the summary. */
  method Run(title: string, repos: seq<Repo>, network: Request -> Reply, parse: string -> Option<seq<Pull>>)
    returns (output: string)
    ensures !AllFetched(repos, network, parse) ==> output == "Error\n"
    ensures AllFetched(repos, network, parse) ==>
      output == TitleText(title, TotalCount(Fetched(repos, network, parse))) + "\n"
                + Blocks(Fetched(repos, network, parse)) + "\n"
  {
    var results: seq<RepoResult> := [];
    for i := 0 to |repos|
      invariant |results| == i
      invariant forall j :: 0 <= j < i ==> Some(results[j]) == FetchPulls(repos[j], network, parse)
    {
      var r := FetchPulls(repos[i], network, parse);
      if r.None? {
        return "Error\n";
      }
      results := results + [r.value];
    }
    assert results == Fetched(repos, network, parse);
    output := Summarise(title, results);
  }
}
