/** `github-contributions.js`: the day's contribution totals of a list of
    users, read from the markers of each user's contribution calendar, sorted,
    merged into a history of snapshots keyed by date, and rendered together
    with each user's recent day-to-day changes. */
module Contributions {
  import opened JsText
  import opened JsObject
  import opened Helpers

  // ---------------------------------------------------------------------------
  // the `data-count` markers of a calendar page

  /** The fixed part of `/data-count="(\d+)"/` before the digits. */
  const Prefix: string := "data-count=\""

  /** The length of the run of digits `s` starts with. */
  function DigitRun(s: string): (n: nat)
    ensures n <= |s| && AllDigits(s[..n])
    ensures n < |s| ==> !IsDigit(s[n])
    decreases |s|
  {
    if s != [] && IsDigit(s[0]) then
      var n := 1 + DigitRun(s[1..]);
      assert forall k :: 1 <= k < n ==> s[..n][k] == s[1..][..n - 1][k - 1];
      n
    else 0
  }

  /** The text of one match: the prefix, one or more digits, a quote. */
  predicate IsMatchText(m: string) {
    |m| >= |Prefix| + 2 && m[..|Prefix|] == Prefix && m[|m| - 1] == '"'
    && AllDigits(m[|Prefix|..|m| - 1])
  }

  /** The length of the match starting at the first character of `s`, or 0
      when the pattern does not match there. `\d+` is greedy and must be
      followed by `"`, so the digits are the whole run. */
  function MatchAt(s: string): (n: nat)
    ensures n <= |s|
    ensures n > 0 ==> IsMatchText(s[..n])
  {
    if StartsWith(s, Prefix) then
      var d := DigitRun(s[|Prefix|..]);
      if d >= 1 && |Prefix| + d < |s| && s[|Prefix| + d] == '"' then
        var n := |Prefix| + d + 1;
        assert s[..n][|Prefix|..n - 1] == s[|Prefix|..][..d];
        n
      else 0
    else 0
  }

  /** `body.match(/data-count="(\d+)"/gm)` as a list of matched texts: the
      scan starts at the beginning, resumes right after each match, and
      moves on by one character where nothing matches. */
  function MatchAll(s: string): (r: seq<string>)
    ensures forall i :: 0 <= i < |r| ==> IsMatchText(r[i])
    decreases |s|
  {
    if s == [] then []
    else
      var n := MatchAt(s);
      if n > 0 then [s[..n]] + MatchAll(s[n..]) else MatchAll(s[1..])
  }

  /** The number a match stands for: its digits. */
  function MatchNumber(m: string): nat
    requires IsMatchText(m)
  {
    DigitsValue(m[|Prefix|..|m| - 1])
  }

  /** `s.replace(/"/g, '')`. */
  function RemoveQuotes(s: string): (r: string)
    ensures '"' !in r
  {
    if s == [] then []
    else RemoveQuotes(s[..|s| - 1]) + (if s[|s| - 1] == '"' then [] else [s[|s| - 1]])
  }

  /** `match.replace('data-count=', '').replace(/"/g, '')`. */
  function MatchDigits(m: string): string {
    RemoveQuotes(ReplaceFirst(m, "data-count=", ""))
  }

  lemma {:induction false} RemoveQuotesDigits(s: string)
    requires AllDigits(s)
    ensures RemoveQuotes(s) == s
    decreases |s|
  {
    if s != [] {
      RemoveQuotesDigits(s[..|s| - 1]);
      assert s == s[..|s| - 1] + [s[|s| - 1]];
    }
  }

  /** Stripping the pattern's fixed text from a match leaves its digits. */
  lemma MatchDigitsOfMatch(m: string)
    requires IsMatchText(m)
    ensures MatchDigits(m) == m[|Prefix|..|m| - 1]
  {
    var key := "data-count=";
    assert m[..|key|] == m[..|Prefix|][..|key|];
    ReplaceAtStart(m, key, "");
    var digits := m[|Prefix|..|m| - 1];
    assert "" + m[|key|..] == ['"'] + digits + ['"'];
    QuotedDigits(digits);
  }

  lemma QuotedDigits(digits: string)
    requires AllDigits(digits)
    ensures RemoveQuotes(['"'] + digits + ['"']) == digits
  {
    RemoveQuotesDigits(digits);
    RemoveQuotesAppend(['"'] + digits, ['"']);
    RemoveQuotesAppend(['"'], digits);
    assert ['"'][..0] == [];
  }

  lemma {:induction false} RemoveQuotesAppend(a: string, b: string)
    ensures RemoveQuotes(a + b) == RemoveQuotes(a) + RemoveQuotes(b)
    decreases |b|
  {
    if b == [] {
      assert a + b == a;
    } else {
      var ab := a + b;
      assert ab[..|ab| - 1] == a + b[..|b| - 1] && ab[|ab| - 1] == b[|b| - 1];
      RemoveQuotesAppend(a, b[..|b| - 1]);
    }
  }

  /** The sum of the numbers of a list of matches. */
  function SumOfMatches(ms: seq<string>): nat
    requires forall i :: 0 <= i < |ms| ==> IsMatchText(ms[i])
  {
    if ms == [] then 0 else SumOfMatches(ms[..|ms| - 1]) + MatchNumber(ms[|ms| - 1])
  }

  /** A user's total, or `None` where `matches` is `null` and the script
      fails on `matches.forEach`. */
  function TotalOf(body: string): Option<nat> {
    var ms := MatchAll(body);
    if ms == [] then None else Some(SumOfMatches(ms))
  }

  /** The summing loop of `getUserContributions`: `+` on each match's
      digits, added to a running total that starts at 0. */
  method SumMatches(body: string) returns (total: Option<nat>)
    ensures total == TotalOf(body)
  {
    var matches := MatchAll(body);
    if matches == [] {
      return None;
    }
    var sum := 0;
    for i := 0 to |matches|
      invariant sum == SumOfMatches(matches[..i])
    {
      var digits := MatchDigits(matches[i]);
      MatchDigitsOfMatch(matches[i]);
      SumOfMatchesStep(matches, i);
      sum := sum + DigitsValue(digits);
    }
    assert matches[..|matches|] == matches;
    total := Some(sum);
  }

  lemma SumOfMatchesStep(ms: seq<string>, i: nat)
    requires i < |ms| && forall k :: 0 <= k < |ms| ==> IsMatchText(ms[k])
    ensures SumOfMatches(ms[..i + 1]) == SumOfMatches(ms[..i]) + MatchNumber(ms[i])
  {
    assert ms[..i + 1][..i] == ms[..i];
  }

  /** The marker a calendar cell carries for `count` contributions. */
  function Marker(count: nat): string {
    Prefix + NatToString(count) + "\""
  }

  /** Markers written one after another. */
  function Markers(counts: seq<nat>): string {
    if counts == [] then "" else Marker(counts[0]) + Markers(counts[1..])
  }

  function Numbers(ms: seq<string>): seq<nat>
    requires forall i :: 0 <= i < |ms| ==> IsMatchText(ms[i])
  {
    seq(|ms|, i requires 0 <= i < |ms| => MatchNumber(ms[i]))
  }

  lemma {:induction false} DigitRunFollowed(d: string, rest: string)
    requires AllDigits(d)
    requires rest != [] && !IsDigit(rest[0])
    ensures DigitRun(d + rest) == |d|
    decreases |d|
  {
    var s := d + rest;
    if d == [] {
      assert s == rest;
    } else {
      assert s[0] == d[0] && IsDigit(s[0]);
      assert s[1..] == d[1..] + rest;
      assert AllDigits(d[1..]);
      DigitRunFollowed(d[1..], rest);
      assert DigitRun(s) == 1 + DigitRun(s[1..]);
    }
  }

  /** The prefix, a run of digits and a quote at the front are matched
      whole. */
  lemma QuotedRunMatched(digits: string, rest: string)
    requires |digits| >= 1 && AllDigits(digits)
    ensures MatchAt(Prefix + digits + "\"" + rest) == |Prefix| + |digits| + 1
  {
    var s := Prefix + digits + "\"" + rest;
    assert s == Prefix + (digits + ("\"" + rest));
    assert StartsWith(s, Prefix);
    assert s[|Prefix|..] == digits + ("\"" + rest);
    DigitRunFollowed(digits, "\"" + rest);
  }

  /** A marker at the front is matched whole, and the scan resumes after it. */
  lemma MarkerMatched(count: nat, rest: string)
    ensures MatchAll(Marker(count) + rest) == [Marker(count)] + MatchAll(rest)
  {
    var m := Marker(count);
    var s := m + rest;
    QuotedRunMatched(NatToString(count), rest);
    assert s[..|m|] == m && s[|m|..] == rest;
  }

  /** The number of a marker is its count. */
  lemma MarkerNumber(count: nat)
    ensures IsMatchText(Marker(count)) && MatchNumber(Marker(count)) == count
  {
    var m := Marker(count);
    var digits := NatToString(count);
    assert m[..|Prefix|] == Prefix && m[|Prefix|..|m| - 1] == digits;
  }

  lemma NumbersCons(m: string, ms: seq<string>)
    requires IsMatchText(m) && forall i :: 0 <= i < |ms| ==> IsMatchText(ms[i])
    ensures Numbers([m] + ms) == [MatchNumber(m)] + Numbers(ms)
  {
    var all := [m] + ms;
    assert forall i :: 1 <= i < |all| ==> all[i] == ms[i - 1];
  }

  /** The scanner reads back exactly the counts the markers were written
      for. */
  lemma {:induction false} ScanMarkers(counts: seq<nat>)
    ensures Numbers(MatchAll(Markers(counts))) == counts
    decreases |counts|
  {
    if counts != [] {
      var rest := Markers(counts[1..]);
      MarkerMatched(counts[0], rest);
      MarkerNumber(counts[0]);
      ScanMarkers(counts[1..]);
      NumbersCons(Marker(counts[0]), MatchAll(rest));
      assert counts == [counts[0]] + counts[1..];
    }
  }

  /** A page without the pattern's prefix has no match: the script stops
      there instead of reporting 0. */
  lemma {:induction false} NoPrefixNoMatch(s: string)
    requires IndexOf(s, Prefix).None?
    ensures MatchAll(s) == []
    decreases |s|
  {
    if s != [] {
      assert !OccursAt(s, Prefix, 0);
      assert MatchAt(s) == 0;
      forall j | 0 <= j <= |s[1..]| ensures !OccursAt(s[1..], Prefix, j) {
        assert !OccursAt(s, Prefix, j + 1);
        if j + |Prefix| <= |s| - 1 {
          assert s[1..][j..j + |Prefix|] == s[j + 1..j + 1 + |Prefix|];
        }
      }
      NoPrefixNoMatch(s[1..]);
    }
  }

  /** Text in which no match can begin, whatever follows it: no occurrence
      of the prefix starts inside it, even one running on into a following
      prefix. */
  predicate Quiet(j: string) {
    forall p :: 0 <= p < |j| ==> !OccursAt(j + Prefix, Prefix, p)
  }

  /** Where no occurrence of the prefix starts inside `j`, the scan passes
      over `j` one character at a time and finds only what `rest` holds. */
  lemma {:induction false} SkipJunk(j: string, rest: string)
    requires forall p :: 0 <= p < |j| ==> !OccursAt(j + rest, Prefix, p)
    ensures MatchAll(j + rest) == MatchAll(rest)
    decreases |j|
  {
    if j != [] {
      var s := j + rest;
      assert !OccursAt(s, Prefix, 0);
      assert MatchAt(s) == 0;
      assert MatchAll(s) == MatchAll(s[1..]);
      assert s[1..] == j[1..] + rest;
      forall p | 0 <= p < |j[1..]| ensures !OccursAt(s[1..], Prefix, p) {
        OccursLater(s, Prefix, p);
      }
      SkipJunk(j[1..], rest);
    } else {
      assert j + rest == rest;
    }
  }

  /** Dropping the first character moves every occurrence one place left. */
  lemma OccursLater(s: string, pat: string, p: nat)
    requires s != []
    ensures OccursAt(s[1..], pat, p) <==> OccursAt(s, pat, p + 1)
  {
    if p + |pat| <= |s| - 1 {
      assert s[1..][p..p + |pat|] == s[p + 1..p + 1 + |pat|];
    }
  }

  /** Quiet text followed by nothing, or by the start of a marker, holds no
      occurrence of the prefix that starts inside it. */
  lemma QuietSkips(j: string, tail: string)
    requires Quiet(j)
    requires tail == "" || StartsWith(tail, Prefix)
    ensures forall p :: 0 <= p < |j| ==> !OccursAt(j + tail, Prefix, p)
  {
    forall p | 0 <= p < |j| ensures !OccursAt(j + tail, Prefix, p) {
      SameWindow(j, tail, p);
    }
  }

  /** A window of the prefix's length that starts inside `j` reads the same
      whether `j` is followed by `tail` or by the prefix itself. */
  lemma SameWindow(j: string, tail: string, p: nat)
    requires p < |j|
    requires tail == "" || StartsWith(tail, Prefix)
    ensures OccursAt(j + tail, Prefix, p) ==> OccursAt(j + Prefix, Prefix, p)
  {
    var e := p + |Prefix|;
    if e <= |j| + |tail| {
      forall k | p <= k < e ensures (j + tail)[k] == (j + Prefix)[k] {
        if k >= |j| {
          assert tail[k - |j|] == tail[..|Prefix|][k - |j|];
        }
      }
      assert (j + tail)[p..e] == (j + Prefix)[p..e];
    }
  }

  /** A calendar page: quiet text around the markers, `junk[0]`, the first
      marker, `junk[1]`, ..., the last marker, `junk[|counts|]`. */
  function Page(junk: seq<string>, counts: seq<nat>): string
    requires |junk| == |counts| + 1
    decreases |counts|
  {
    if counts == [] then junk[0] else junk[0] + (Marker(counts[0]) + Page(junk[1..], counts[1..]))
  }

  /** The scanner reads back the counts of the markers of a page, in order,
      skipping the text around them. */
  lemma {:induction false} ScanPage(junk: seq<string>, counts: seq<nat>)
    requires |junk| == |counts| + 1
    requires forall i :: 0 <= i < |junk| ==> Quiet(junk[i])
    ensures Numbers(MatchAll(Page(junk, counts))) == counts
    decreases |counts|
  {
    if counts == [] {
      QuietSkips(junk[0], "");
      SkipJunk(junk[0], "");
      assert junk[0] + "" == junk[0];
    } else {
      var rest := Page(junk[1..], counts[1..]);
      var tail := Marker(counts[0]) + rest;
      assert tail[..|Prefix|] == Prefix;
      QuietSkips(junk[0], tail);
      SkipJunk(junk[0], tail);
      MarkerMatched(counts[0], rest);
      MarkerNumber(counts[0]);
      ScanPage(junk[1..], counts[1..]);
      NumbersCons(Marker(counts[0]), MatchAll(rest));
      assert counts == [counts[0]] + counts[1..];
    }
  }

  // ---------------------------------------------------------------------------
  // sorting the day's records

  /** One entry of `totalsByUser`. */
  datatype Record = Record(username: string, total: nat)

  /** Put `x` into `sorted` from the back, past every record with a smaller
      total: the comparator puts larger totals first and returns 0 on ties,
      and the stable sort keeps the later record after an equal one. */
  function InsertByTotal(sorted: seq<Record>, x: Record): (r: seq<Record>)
    ensures |r| == |sorted| + 1
  {
    if sorted == [] || sorted[|sorted| - 1].total >= x.total then sorted + [x]
    else InsertByTotal(sorted[..|sorted| - 1], x) + [sorted[|sorted| - 1]]
  }

  /** `totalsByUser.sort((a, b) => a.total > b.total ? -1 : a.total < b.total ? 1 : 0)`,
      a stable sort (as ECMAScript 2019 requires of `Array.prototype.sort`). */
  function SortByTotal(s: seq<Record>): (r: seq<Record>)
    ensures |r| == |s|
  {
    if s == [] then [] else InsertByTotal(SortByTotal(s[..|s| - 1]), s[|s| - 1])
  }

  predicate Descending(s: seq<Record>) {
    forall i, j :: 0 <= i < j < |s| ==> s[i].total >= s[j].total
  }

  lemma {:induction false} InsertKeepsDescending(sorted: seq<Record>, x: Record)
    requires Descending(sorted)
    ensures Descending(InsertByTotal(sorted, x))
    ensures forall i :: 0 <= i < |InsertByTotal(sorted, x)| ==>
      InsertByTotal(sorted, x)[i] == x || InsertByTotal(sorted, x)[i] in sorted
    decreases |sorted|
  {
    if sorted != [] && sorted[|sorted| - 1].total < x.total {
      var init, last := sorted[..|sorted| - 1], sorted[|sorted| - 1];
      InsertKeepsDescending(init, x);
      var r := InsertByTotal(init, x);
      forall i | 0 <= i < |r| ensures r[i].total >= last.total {
        if r[i] != x {
          var k :| 0 <= k < |init| && init[k] == r[i];
        }
      }
      forall i | 0 <= i < |r| ensures r[i] == x || r[i] in sorted {
        if r[i] != x {
          var k :| 0 <= k < |init| && init[k] == r[i];
          assert sorted[k] == r[i];
        }
      }
    }
  }

  /** The sorted records run from the largest total to the smallest. */
  lemma {:induction false} SortDescending(s: seq<Record>)
    ensures Descending(SortByTotal(s))
    decreases |s|
  {
    if s != [] {
      SortDescending(s[..|s| - 1]);
      InsertKeepsDescending(SortByTotal(s[..|s| - 1]), s[|s| - 1]);
    }
  }

  lemma {:induction false} InsertPermutes(sorted: seq<Record>, x: Record)
    ensures multiset(InsertByTotal(sorted, x)) == multiset(sorted) + multiset{x}
    decreases |sorted|
  {
    if sorted != [] && sorted[|sorted| - 1].total < x.total {
      var init := sorted[..|sorted| - 1];
      InsertPermutes(init, x);
      assert sorted == init + [sorted[|sorted| - 1]];
    }
  }

  /** Sorting neither drops nor duplicates a record. */
  lemma {:induction false} SortPermutes(s: seq<Record>)
    ensures multiset(SortByTotal(s)) == multiset(s)
    decreases |s|
  {
    if s != [] {
      var init := s[..|s| - 1];
      SortPermutes(init);
      InsertPermutes(SortByTotal(init), s[|s| - 1]);
      assert s == init + [s[|s| - 1]];
    }
  }

  /** The records with total `t`, in their order. */
  function WithTotal(s: seq<Record>, t: nat): (r: seq<Record>)
    ensures |r| <= |s|
  {
    if s == [] then []
    else WithTotal(s[..|s| - 1], t) + (if s[|s| - 1].total == t then [s[|s| - 1]] else [])
  }

  lemma {:induction false} InsertWithTotal(sorted: seq<Record>, x: Record, t: nat)
    ensures WithTotal(InsertByTotal(sorted, x), t)
      == WithTotal(sorted, t) + (if x.total == t then [x] else [])
    decreases |sorted|
  {
    var r := InsertByTotal(sorted, x);
    if sorted == [] || sorted[|sorted| - 1].total >= x.total {
      assert r == sorted + [x] && r[..|r| - 1] == sorted;
    } else {
      var init, last := sorted[..|sorted| - 1], sorted[|sorted| - 1];
      InsertWithTotal(init, x, t);
      var r' := InsertByTotal(init, x);
      assert r == r' + [last] && r[..|r| - 1] == r';
    }
  }

  /** Records with equal totals keep their relative order. */
  lemma {:induction false} SortStable(s: seq<Record>, t: nat)
    ensures WithTotal(SortByTotal(s), t) == WithTotal(s, t)
    decreases |s|
  {
    if s != [] {
      SortStable(s[..|s| - 1], t);
      InsertWithTotal(SortByTotal(s[..|s| - 1]), s[|s| - 1], t);
    }
  }

  /** Where the backward scan of insertion stops, `InsertByTotal` puts the
      record. */
  lemma {:induction false} InsertAt(sorted: seq<Record>, x: Record, j: nat)
    requires j <= |sorted|
    requires j == 0 || sorted[j - 1].total >= x.total
    requires forall k :: j <= k < |sorted| ==> sorted[k].total < x.total
    ensures InsertByTotal(sorted, x) == sorted[..j] + [x] + sorted[j..]
    decreases |sorted|
  {
    if j < |sorted| {
      var init := sorted[..|sorted| - 1];
      InsertAt(init, x, j);
      assert init[..j] == sorted[..j];
      assert init[j..] + [sorted[|sorted| - 1]] == sorted[j..];
    } else {
      assert sorted[..j] == sorted && sorted[j..] == [];
    }
  }

  /** One step of insertion: the record at `i` moves left past the records
      with smaller totals in the sorted prefix before it. */
  method InsertLast(a: array<Record>, i: nat)
    requires i < a.Length
    modifies a
    ensures a[..i + 1] == InsertByTotal(old(a[..i]), old(a[i]))
    ensures a[i + 1..] == old(a[i + 1..])
  {
    ghost var p := a[..i];
    ghost var rest := a[i + 1..];
    var x := a[i];
    var j := i;
    while j > 0 && a[j - 1].total < x.total
      invariant 0 <= j <= i
      invariant forall k :: 0 <= k < j ==> a[k] == p[k]
      invariant forall k :: j < k <= i ==> a[k] == p[k - 1]
      invariant forall k :: i < k < a.Length ==> a[k] == rest[k - i - 1]
      invariant forall k :: j <= k < i ==> p[k].total < x.total
    {
      a[j] := a[j - 1];
      j := j - 1;
    }
    a[j] := x;
    InsertAt(p, x, j);
    Shifted(a[..], p, rest, x, i, j);
  }

  /** The array after the shift, as a sequence: the prefix up to `j`, the
      moved record, the shifted rest of the prefix, the untouched suffix. */
  lemma Shifted(b: seq<Record>, p: seq<Record>, rest: seq<Record>, x: Record, i: nat, j: nat)
    requires j <= i < |b| && |p| == i && |rest| == |b| - i - 1
    requires forall k :: 0 <= k < j ==> b[k] == p[k]
    requires b[j] == x
    requires forall k :: j < k <= i ==> b[k] == p[k - 1]
    requires forall k :: i < k < |b| ==> b[k] == rest[k - i - 1]
    ensures b[..i + 1] == p[..j] + [x] + p[j..]
    ensures b[i + 1..] == rest
  {
  }

  /** The in-place sort of `totalsByUser`, by insertion. */
  method SortTotals(a: array<Record>)
    modifies a
    ensures a[..] == SortByTotal(old(a[..]))
  {
    ghost var s := a[..];
    for i := 0 to a.Length
      invariant a[..i] == SortByTotal(s[..i])
      invariant a[i..] == s[i..]
    {
      assert a[i] == s[i];
      InsertLast(a, i);
      assert s[..i + 1][..i] == s[..i];
    }
    assert a[..] == a[..a.Length] && s[..a.Length] == s;
  }

  // ---------------------------------------------------------------------------
  // configuration and arguments

  /** `config.<key> || ""`: a missing or empty setting reads as `""`. */
  function Setting(env: map<string, string>, key: string): (v: string)
    ensures key in env ==> v == env[key]
    ensures key !in env ==> v == ""
  {
    if key in env then env[key] else ""
  }

  /** `args[0] || config.CONTRIBUTION_USERS || ''`: the first of the three
      that is present and not empty. */
  function UsersText(args: seq<string>, env: map<string, string>): (t: string)
    ensures |args| > 0 && args[0] != "" ==> t == args[0]
    ensures (|args| == 0 || args[0] == "") ==> t == Setting(env, "CONTRIBUTION_USERS")
  {
    if |args| > 0 && args[0] != "" then args[0] else Setting(env, "CONTRIBUTION_USERS")
  }

  /** `checkUsers`: the chosen text split on `,`. */
  function CheckUsers(args: seq<string>, env: map<string, string>): (users: seq<string>)
    ensures |users| >= 1
    ensures Join(users, ",") == UsersText(args, env)
    ensures forall i :: 0 <= i < |users| ==> ',' !in users[i]
  {
    Split(UsersText(args, env), ',')
  }

  /** With no argument and no setting there is one user, the empty name. */
  lemma NoUsersConfigured(env: map<string, string>)
    requires "CONTRIBUTION_USERS" !in env
    ensures CheckUsers([], env) == [""]
  {
    SplitJoin([""], ',');
  }

  /** Names are neither de-duplicated nor trimmed. */
  lemma UsersKeptAsListed(env: map<string, string>)
    ensures CheckUsers(["a,a, b"], env) == ["a", "a", " b"]
  {
    var parts := ["a", "a", " b"];
    assert Join(parts, ",") == "a,a, b" by {
      assert parts[1..] == ["a", " b"] && parts[1..][1..] == [" b"];
    }
    SplitJoin(parts, ',');
  }

  /** `args[1] !== 'false' && args[1] !== '0'`: the snapshot is written
      unless the second argument is exactly one of those two texts. */
  function WriteFlag(args: seq<string>): (w: bool)
    ensures !w <==> |args| >= 2 && (args[1] == "false" || args[1] == "0")
  {
    |args| < 2 || (args[1] != "false" && args[1] != "0")
  }

  // ---------------------------------------------------------------------------
  // convertToKeyVal and diff

  function Pairs(block: seq<Record>): (r: seq<(string, nat)>)
    ensures |r| == |block| && forall i :: 0 <= i < |block| ==> r[i] == (block[i].username, block[i].total)
  {
    seq(|block|, i requires 0 <= i < |block| => (block[i].username, block[i].total))
  }

  /** The dictionary `convertToKeyVal` builds. */
  function ToKeyVal(block: seq<Record>): map<string, nat> {
    Assign(Pairs(block))
  }

  /** `convertToKeyVal`: `keyVal[item.username] = item.total` for each record
      in turn. */
  method ConvertToKeyVal(block: seq<Record>) returns (keyVal: map<string, nat>)
    ensures keyVal == ToKeyVal(block)
  {
    keyVal := map[];
    ghost var pairs := Pairs(block);
    for i := 0 to |block|
      invariant keyVal == Assign(pairs[..i])
    {
      AssignStep(pairs, i);
      keyVal := keyVal[block[i].username := block[i].total];
    }
    assert pairs[..|block|] == pairs;
  }

  /** The names in the dictionary are exactly the names in the block. */
  lemma KeyValNames(block: seq<Record>, user: string)
    ensures user in ToKeyVal(block) <==> exists i :: 0 <= i < |block| && block[i].username == user
  {
    var pairs := Pairs(block);
    AssignKeys(pairs, user);
    if user in ToKeyVal(block) {
      var i :| 0 <= i < |pairs| && pairs[i].0 == user;
      assert block[i].username == user;
    }
  }

  /** A name that repeats takes the total of its last record. */
  lemma KeyValLastWins(block: seq<Record>, i: nat)
    requires i < |block|
    requires forall j :: i < j < |block| ==> block[j].username != block[i].username
    ensures block[i].username in ToKeyVal(block)
    ensures ToKeyVal(block)[block[i].username] == block[i].total
  {
    var pairs := Pairs(block);
    assert forall j :: i < j < |pairs| ==> pairs[j].0 != pairs[i].0;
    AssignLastWins(pairs, i);
  }

  /** `diff(input)`: the changes between neighbours. */
  function Diff(input: seq<int>): (r: seq<int>)
    ensures |input| == 0 ==> r == []
    ensures |input| > 0 ==> |r| == |input| - 1
  {
    if input == [] then []
    else seq(|input| - 1, i requires 0 <= i < |input| - 1 => input[i + 1] - input[i])
  }

  /** Each entry is the change from one value to the next. */
  lemma DiffAt(input: seq<int>, i: nat)
    requires i + 1 < |input|
    ensures Diff(input)[i] == input[i + 1] - input[i]
  {
  }

  lemma DiffCons(x: int, input: seq<int>)
    requires input != []
    ensures Diff([x] + input) == [input[0] - x] + Diff(input)
  {
    var s := [x] + input;
    forall i | 0 <= i < |input| ensures Diff(s)[i] == ([input[0] - x] + Diff(input))[i] {
      if i > 0 {
        DiffAt(input, i - 1);
      }
    }
  }

  lemma DiffSnoc(input: seq<int>, x: int)
    requires input != []
    ensures Diff(input + [x]) == Diff(input) + [x - input[|input| - 1]]
  {
    var s := input + [x];
    forall i | 0 <= i < |input| ensures Diff(s)[i] == (Diff(input) + [x - input[|input| - 1]])[i] {
      if i < |input| - 1 {
        DiffAt(input, i);
      }
    }
  }

  /** The running totals from `start` by the steps `deltas`: the inverse of
      `Diff`. */
  function Accumulate(start: int, deltas: seq<int>): (r: seq<int>)
    ensures |r| == |deltas| + 1 && r[0] == start
    decreases |deltas|
  {
    if deltas == [] then [start] else [start] + Accumulate(start + deltas[0], deltas[1..])
  }

  lemma {:induction false} DiffAccumulate(start: int, deltas: seq<int>)
    ensures Diff(Accumulate(start, deltas)) == deltas
    decreases |deltas|
  {
    if deltas != [] {
      var rest := Accumulate(start + deltas[0], deltas[1..]);
      DiffAccumulate(start + deltas[0], deltas[1..]);
      DiffCons(start, rest);
      assert deltas == [deltas[0]] + deltas[1..];
    }
  }

  /** A series is its first value followed by its changes. */
  lemma {:induction false} AccumulateDiff(input: seq<int>)
    requires input != []
    ensures Accumulate(input[0], Diff(input)) == input
    decreases |input|
  {
    if |input| > 1 {
      var tail := input[1..];
      AccumulateDiff(tail);
      assert input == [input[0]] + tail;
      DiffCons(input[0], tail);
    }
  }

  function Sum(s: seq<int>): int {
    if s == [] then 0 else Sum(s[..|s| - 1]) + s[|s| - 1]
  }

  /** The changes add up to the difference between the last value and the
      first. */
  lemma {:induction false} DiffTelescopes(input: seq<int>)
    requires input != []
    ensures Sum(Diff(input)) == input[|input| - 1] - input[0]
    decreases |input|
  {
    if |input| > 1 {
      var init := input[..|input| - 1];
      DiffTelescopes(init);
      assert input == init + [input[|input| - 1]];
      DiffSnoc(init, input[|input| - 1]);
      var d := Diff(input);
      assert d[..|d| - 1] == Diff(init);
    }
  }

  // ---------------------------------------------------------------------------
  // getOrderedHistory

  /** The saved snapshots: each date key (`%Y-%m-%d %H:%M`) holds the sorted
      records of one run. */
  type Snapshot = map<string, seq<Record>>

  predicate Ascending(s: seq<string>) {
    forall i, j :: 0 <= i < j < |s| ==> LexLess(s[i], s[j])
  }

  predicate IsLeast(m: string, ks: set<string>) {
    m in ks && forall k :: k in ks && k != m ==> LexLess(m, k)
  }

  lemma {:induction false} LeastOf(ks: set<string>) returns (m: string)
    requires ks != {}
    ensures IsLeast(m, ks)
    decreases |ks|
  {
    var x :| x in ks;
    if ks == {x} {
      m := x;
    } else {
      var y := LeastOf(ks - {x});
      LexLessTotal(x, y);
      if LexLess(x, y) {
        m := x;
        forall k | k in ks && k != x ensures LexLess(x, k) {
          if k != y { LexLessTransitive(x, y, k); }
        }
      } else {
        m := y;
      }
    }
  }

  lemma LeastExists(ks: set<string>)
    requires ks != {}
    ensures exists m :: IsLeast(m, ks)
  {
    var m := LeastOf(ks);
  }

  lemma LeastUnique(ks: set<string>)
    ensures forall a, b :: IsLeast(a, ks) && IsLeast(b, ks) ==> a == b
  {
    forall a, b | IsLeast(a, ks) && IsLeast(b, ks) ensures a == b {
      LexLessTotal(a, b);
    }
  }

  lemma LeastFirst(m: string, ks: set<string>, rest: seq<string>)
    requires IsLeast(m, ks)
    requires forall k :: k in rest <==> k in ks - {m}
    ensures forall j :: 0 <= j < |rest| ==> LexLess(m, rest[j])
  {
    forall j | 0 <= j < |rest| ensures LexLess(m, rest[j]) {
      assert rest[j] in rest;
    }
  }

  /** `Object.keys(..).sort((a, b) => a < b ? -1 : 1)`: the keys in
      ascending order of JavaScript's `<`. */
  function SortedKeys(ks: set<string>): (r: seq<string>)
    ensures |r| == |ks|
    ensures forall k :: k in r <==> k in ks
    ensures Ascending(r)
    decreases |ks|
  {
    if ks == {} then []
    else
      LeastExists(ks);
      LeastUnique(ks);
      var m :| IsLeast(m, ks);
      var rest := SortedKeys(ks - {m});
      LeastFirst(m, ks, rest);
      [m] + rest
  }

  /** `.slice(-5)` of the sorted keys: the five most recent dates, or all of
      them when there are fewer. */
  function RecentKeys(ks: set<string>): (r: seq<string>)
    ensures forall k :: k in r ==> k in ks
  {
    var s := SortedKeys(ks);
    if |s| <= 5 then s else s[|s| - 5..]
  }

  /** The chosen keys are ascending, at most five, and later than every key
      left out. */
  lemma RecentKeysSpec(ks: set<string>)
    ensures var r := RecentKeys(ks);
      && Ascending(r)
      && |r| == (if |ks| <= 5 then |ks| else 5)
      && forall k, j :: k in ks && k !in r && 0 <= j < |r| ==> LexLess(k, r[j])
  {
    var s := SortedKeys(ks);
    var r := RecentKeys(ks);
    forall k, j | k in ks && k !in r && 0 <= j < |r| ensures LexLess(k, r[j]) {
      var p :| 0 <= p < |s| && s[p] == k;
      assert r[j] == s[|s| - 5 + j];
    }
  }

  /** Every user named by one of the snapshots at `keys`. */
  function Users(snapshot: Snapshot, keys: seq<string>): set<string>
    requires forall k :: k in keys ==> k in snapshot
  {
    if keys == [] then {}
    else Users(snapshot, keys[..|keys| - 1]) + ToKeyVal(snapshot[keys[|keys| - 1]]).Keys
  }

  /** The totals of `user`, snapshot by snapshot, skipping snapshots without
      the user. */
  function Series(snapshot: Snapshot, keys: seq<string>, user: string): seq<int>
    requires forall k :: k in keys ==> k in snapshot
  {
    if keys == [] then []
    else
      var kv := ToKeyVal(snapshot[keys[|keys| - 1]]);
      Series(snapshot, keys[..|keys| - 1], user) + (if user in kv then [kv[user] as int] else [])
  }

  function SeriesMap(snapshot: Snapshot, keys: seq<string>): map<string, seq<int>>
    requires forall k :: k in keys ==> k in snapshot
  {
    map u | u in Users(snapshot, keys) :: Series(snapshot, keys, u)
  }

  /** Every series replaced by its changes. */
  function DiffEach(series: map<string, seq<int>>): map<string, seq<int>> {
    map u | u in series :: Diff(series[u])
  }

  /** For each user seen in the snapshots at `keys`, the changes of that
      user's total between them. */
  function HistoryAt(snapshot: Snapshot, keys: seq<string>): map<string, seq<int>>
    requires forall k :: k in keys ==> k in snapshot
  {
    DiffEach(SeriesMap(snapshot, keys))
  }

  /** What `getOrderedHistory` returns: the history over the five most
      recent snapshots. */
  function History(snapshot: Snapshot): map<string, seq<int>> {
    HistoryAt(snapshot, RecentKeys(snapshot.Keys))
  }

  /** `perUser` after pushing `keyVal[user]` for every user of `keyVal`. */
  function Pushed(base: map<string, seq<int>>, keyVal: map<string, nat>): map<string, seq<int>> {
    map u | u in base.Keys + keyVal.Keys ::
      (if u in base then base[u] else []) + (if u in keyVal then [keyVal[u] as int] else [])
  }

  /** A user's series once the users in `done` have had their totals pushed. */
  function PushedEntry(base: map<string, seq<int>>, keyVal: map<string, nat>, done: seq<string>, u: string): seq<int>
    requires forall k :: k in done ==> k in keyVal
  {
    (if u in base then base[u] else []) + (if u in done then [keyVal[u] as int] else [])
  }

  lemma PushedAll(base: map<string, seq<int>>, keyVal: map<string, nat>, names: seq<string>, m: map<string, seq<int>>)
    requires forall u :: u in names <==> u in keyVal
    requires forall u :: u in m <==> u in base || u in keyVal
    requires forall u :: u in m ==> m[u] == PushedEntry(base, keyVal, names, u)
    ensures m == Pushed(base, keyVal)
  {
    var p := Pushed(base, keyVal);
    assert m.Keys == p.Keys;
    forall u | u in m ensures m[u] == p[u] {
    }
  }

  /** A user no snapshot names has an empty series. */
  lemma {:induction false} SeriesOfAbsent(snapshot: Snapshot, keys: seq<string>, user: string)
    requires forall k :: k in keys ==> k in snapshot
    requires user !in Users(snapshot, keys)
    ensures Series(snapshot, keys, user) == []
    decreases |keys|
  {
    if keys != [] {
      SeriesOfAbsent(snapshot, keys[..|keys| - 1], user);
    }
  }

  lemma SeriesMapStep(snapshot: Snapshot, keys: seq<string>, i: nat)
    requires forall k :: k in keys ==> k in snapshot
    requires i < |keys|
    ensures var kv := ToKeyVal(snapshot[keys[i]]);
      SeriesMap(snapshot, keys[..i + 1]) == Pushed(SeriesMap(snapshot, keys[..i]), kv)
  {
    var next := keys[..i + 1];
    var prev := keys[..i];
    assert next[..i] == prev && next[i] == keys[i];
    var kv := ToKeyVal(snapshot[keys[i]]);
    var before := SeriesMap(snapshot, prev);
    var q := SeriesMap(snapshot, next);
    var r := Pushed(before, kv);
    assert q.Keys == r.Keys;
    forall u | u in q ensures q[u] == r[u] {
      if u !in before {
        SeriesOfAbsent(snapshot, prev, u);
      }
    }
  }

  /** The inner loop of `getOrderedHistory`, over the users of one snapshot
      in `for (user in keyVal)` order: each gets
      that snapshot's total pushed onto the series, a new user an empty
      series first. */
  method PushTotals(series: map<string, seq<int>>, keyVal: map<string, nat>, names: seq<string>)
    returns (perUser: map<string, seq<int>>)
    requires forall i, j :: 0 <= i < j < |names| ==> names[i] != names[j]
    requires forall u :: u in names <==> u in keyVal
    ensures perUser == Pushed(series, keyVal)
  {
    perUser := series;
    for j := 0 to |names|
      invariant forall u :: u in perUser <==> u in series || u in names[..j]
      invariant forall u :: u in perUser ==> perUser[u] == PushedEntry(series, keyVal, names[..j], u)
    {
      var user := names[j];
      ghost var before := perUser;
      if user !in perUser {
        perUser := perUser[user := []];
      }
      perUser := perUser[user := perUser[user] + [keyVal[user] as int]];
      PushStep(series, keyVal, names, j, before, perUser);
    }
    assert names[..|names|] == names;
    PushedAll(series, keyVal, names, perUser);
  }

  /** One user's total pushed keeps the loop invariant of `PushTotals`. */
  lemma PushStep(series: map<string, seq<int>>, keyVal: map<string, nat>, names: seq<string>, j: nat,
                 before: map<string, seq<int>>, after: map<string, seq<int>>)
    requires forall i, k :: 0 <= i < k < |names| ==> names[i] != names[k]
    requires forall u :: u in names <==> u in keyVal
    requires j < |names|
    requires forall u :: u in before <==> u in series || u in names[..j]
    requires forall u :: u in before ==> before[u] == PushedEntry(series, keyVal, names[..j], u)
    requires after == before[names[j] := (if names[j] in before then before[names[j]] else []) + [keyVal[names[j]] as int]]
    ensures forall u :: u in after <==> u in series || u in names[..j + 1]
    ensures forall u :: u in after ==> after[u] == PushedEntry(series, keyVal, names[..j + 1], u)
  {
    var user := names[j];
    assert names[..j + 1] == names[..j] + [user];
    assert user !in names[..j];
  }

  /** The last loop of `getOrderedHistory`: `perUser[user] =
      diff(perUser[user])` for every user. */
  method DiffInPlace(series: map<string, seq<int>>) returns (perUser: map<string, seq<int>>)
    ensures perUser == DiffEach(series)
  {
    perUser := series;
    var todo := perUser.Keys;
    while todo != {}
      invariant todo <= series.Keys && perUser.Keys == series.Keys
      invariant forall u :: u in series ==> perUser[u] == if u in todo then series[u] else Diff(series[u])
      decreases |todo|
    {
      var user :| user in todo;
      perUser := perUser[user := Diff(perUser[user])];
      todo := todo - {user};
    }
  }

  /** `getOrderedHistory`: the per-user series over the recent snapshots,
      then `diff` applied to each series. */
  method GetOrderedHistory(snapshot: Snapshot) returns (perUser: map<string, seq<int>>)
    ensures perUser == History(snapshot)
  {
    var keys := RecentKeys(snapshot.Keys);
    perUser := CollectSeries(snapshot, keys);
    perUser := DiffInPlace(perUser);
  }

  /** The first loop of `getOrderedHistory`: the totals of each snapshot at
      `keys`, in order, pushed onto the users' series. */
  method CollectSeries(snapshot: Snapshot, keys: seq<string>) returns (perUser: map<string, seq<int>>)
    requires forall k :: k in keys ==> k in snapshot
    ensures perUser == SeriesMap(snapshot, keys)
  {
    perUser := map[];
    for i := 0 to |keys|
      invariant perUser == SeriesMap(snapshot, keys[..i])
    {
      var keyVal := ConvertToKeyVal(snapshot[keys[i]]);
      var names := KeysInOrder(Pairs(snapshot[keys[i]]));
      perUser := PushTotals(perUser, keyVal, names);
      SeriesMapStep(snapshot, keys, i);
    }
    assert keys[..|keys|] == keys;
  }

  /** A user has a history exactly when one of the recent snapshots names
      that user. */
  lemma {:induction false} UsersNamed(snapshot: Snapshot, keys: seq<string>, user: string)
    requires forall k :: k in keys ==> k in snapshot
    ensures user in Users(snapshot, keys)
      <==> exists i :: 0 <= i < |keys| && user in ToKeyVal(snapshot[keys[i]])
    decreases |keys|
  {
    if keys != [] {
      var init := keys[..|keys| - 1];
      UsersNamed(snapshot, init, user);
      if user in Users(snapshot, init) {
        var i :| 0 <= i < |init| && user in ToKeyVal(snapshot[init[i]]);
        assert keys[i] == init[i];
      }
      forall i | 0 <= i < |init| ensures keys[i] == init[i] { }
    }
  }

  /** A user in every snapshot has one total per snapshot. */
  lemma {:induction false} SeriesOfSteadyUser(snapshot: Snapshot, keys: seq<string>, user: string)
    requires forall k :: k in keys ==> k in snapshot
    requires forall k :: k in keys ==> user in ToKeyVal(snapshot[k])
    ensures |Series(snapshot, keys, user)| == |keys|
    ensures forall i :: 0 <= i < |keys| ==>
      Series(snapshot, keys, user)[i] == ToKeyVal(snapshot[keys[i]])[user]
    decreases |keys|
  {
    if keys != [] {
      var init := keys[..|keys| - 1];
      SeriesOfSteadyUser(snapshot, init, user);
      var kv := ToKeyVal(snapshot[keys[|keys| - 1]]);
      var prev := Series(snapshot, init, user);
      assert Series(snapshot, keys, user) == prev + [kv[user] as int];
      forall i | 0 <= i < |keys|
        ensures Series(snapshot, keys, user)[i] == ToKeyVal(snapshot[keys[i]])[user]
      {
        if i < |init| {
          assert keys[i] == init[i];
        }
      }
    }
  }

  function Total(snapshot: Snapshot, key: string, user: string): int
    requires key in snapshot && user in ToKeyVal(snapshot[key])
  {
    ToKeyVal(snapshot[key])[user]
  }

  /** For a user in every snapshot at `keys` the history holds one change
      per pair of neighbouring snapshots. */
  lemma SteadyChanges(snapshot: Snapshot, keys: seq<string>, user: string)
    requires forall k :: k in keys ==> k in snapshot
    requires keys != [] && forall k :: k in keys ==> user in ToKeyVal(snapshot[k])
    ensures user in HistoryAt(snapshot, keys)
    ensures |HistoryAt(snapshot, keys)[user]| == |keys| - 1
    ensures forall i :: 0 <= i < |keys| - 1 ==>
      HistoryAt(snapshot, keys)[user][i] == Total(snapshot, keys[i + 1], user) - Total(snapshot, keys[i], user)
  {
    UsersNamed(snapshot, keys, user);
    assert user in ToKeyVal(snapshot[keys[0]]);
    SeriesOfSteadyUser(snapshot, keys, user);
    var series := Series(snapshot, keys, user);
    forall i | 0 <= i < |keys| - 1 ensures Diff(series)[i] == series[i + 1] - series[i] {
      DiffAt(series, i);
    }
  }

  /** A user is in the history exactly when named by a recent snapshot. */
  lemma HistoryUsers(snapshot: Snapshot, keys: seq<string>, user: string)
    requires keys == RecentKeys(snapshot.Keys)
    ensures user in History(snapshot) <==> exists i :: 0 <= i < |keys| && user in ToKeyVal(snapshot[keys[i]])
  {
    UsersNamed(snapshot, RecentKeys(snapshot.Keys), user);
  }

  /** Reading the calendar: the total of a page of markers is the sum of their
      counts. */
  lemma TotalOfMarkers(counts: seq<nat>)
    requires counts != []
    ensures TotalOf(Markers(counts)) == Some(Sum(counts))
  {
    var ms := MatchAll(Markers(counts));
    ScanMarkers(counts);
    SumOfNumbers(ms);
  }

  /** Reading a calendar page: the total is the sum of the counts of its
      markers, whatever quiet text lies between them; a page without markers
      has no total. */
  lemma TotalOfPage(junk: seq<string>, counts: seq<nat>)
    requires |junk| == |counts| + 1
    requires forall i :: 0 <= i < |junk| ==> Quiet(junk[i])
    ensures counts == [] ==> TotalOf(Page(junk, counts)) == None
    ensures counts != [] ==> TotalOf(Page(junk, counts)) == Some(Sum(counts))
  {
    var ms := MatchAll(Page(junk, counts));
    ScanPage(junk, counts);
    assert |ms| == |Numbers(ms)|;
    SumOfNumbers(ms);
  }

  lemma {:induction false} SumOfNumbers(ms: seq<string>)
    requires forall i :: 0 <= i < |ms| ==> IsMatchText(ms[i])
    ensures SumOfMatches(ms) == Sum(Numbers(ms))
    decreases |ms|
  {
    if ms != [] {
      var init := ms[..|ms| - 1];
      SumOfNumbers(init);
      assert Numbers(ms)[..|ms| - 1] == Numbers(init);
    }
  }

  // ---------------------------------------------------------------------------
  // getUserContributions, getContriubtions and the script's output

  /** The calendar page of `user` up to `date`; the name is put into the URL
      as it is. */
  function ContributionsUrl(user: string, date: string): string {
    "https://github.com/users/" + user + "/contributions?to=" + date
  }

  /** `{url, username, password, userAgent}` with the configured name as the
      user agent. */
  function UserArg(user: string, date: string, username: string, password: string): ContentArg {
    ContentFields(ContributionsUrl(user, date), Some(username), Some(password), Some(username), map[])
  }

  /** Why a run stops: the request was rejected, or the page had no marker
      (`matches` is `null`). */
  datatype Failure = FetchFailed(error: FetchError) | NoMarkers(user: string)

  datatype Outcome<T> = Done(value: T) | Failed(failure: Failure)

  /** `content.body`. */
  function BodyOf(content: map<string, Field>): string {
    if "body" in content && content["body"].Text? then content["body"].text else ""
  }

  /** What `getUserContributions(user, date)` settles to. */
  function UserTotal(user: string, date: string, username: string, password: string,
                     network: Request -> Reply): Outcome<nat>
  {
    match GetContent(UserArg(user, date, username, password), network)
    case Err(e) => Failed(FetchFailed(e))
    case Ok(content) =>
      match TotalOf(BodyOf(content))
      case None => Failed(NoMarkers(user))
      case Some(total) => Done(total)
  }

  method GetUserContributions(user: string, date: string, username: string, password: string,
                              network: Request -> Reply) returns (r: Outcome<nat>)
    ensures r == UserTotal(user, date, username, password, network)
  {
    var content := GetContent(UserArg(user, date, username, password), network);
    if content.Err? {
      return Failed(FetchFailed(content.error));
    }
    var total := SumMatches(BodyOf(content.value));
    if total.None? {
      return Failed(NoMarkers(user));
    }
    r := Done(total.value);
  }

  /** The request for one user: over HTTPS to the user's calendar, with the
      configured name as user agent, and credentials exactly when both the
      name and the token are set. */
  lemma UserRequest(user: string, date: string, username: string, password: string)
    ensures var req := RequestFor(UserArg(user, date, username, password));
      && req.scheme == Https
      && req.url == ContributionsUrl(user, date)
      && req.headers["User-Agent"] == username
      && ("Authorization" in req.headers <==> username != "" && password != "")
  {
    var url := ContributionsUrl(user, date);
    assert url[..5] == "https";
  }

  /** A successful reply whose chunks make up a calendar page gives the sum
      of the page's counts, or stops the run when the page has no marker; a
      reply with another status stops the run with that status. */
  lemma UserTotalOfReply(user: string, date: string, username: string, password: string,
                         network: Request -> Reply, junk: seq<string>, counts: seq<nat>)
    requires |junk| == |counts| + 1
    requires forall i :: 0 <= i < |junk| ==> Quiet(junk[i])
    ensures var reply := network(RequestFor(UserArg(user, date, username, password)));
      && (reply.Response? && IsSuccess(reply.status) && Join(reply.chunks, "") == Page(junk, counts) ==>
            UserTotal(user, date, username, password, network)
              == if counts == [] then Failed(NoMarkers(user)) else Done(Sum(counts)))
      && (reply.Response? && !IsSuccess(reply.status) ==>
            UserTotal(user, date, username, password, network)
              == Failed(FetchFailed(StatusError(reply.status, reply.responseHeaders))))
  {
    var reply := network(RequestFor(UserArg(user, date, username, password)));
    if reply.Response? && IsSuccess(reply.status) && Join(reply.chunks, "") == Page(junk, counts) {
      TotalOfPage(junk, counts);
    }
  }

  /** The totals of `users`, fetched one after another by `fetch`; the
      first failure ends the loop. */
  function FetchAll(users: seq<string>, fetch: string -> Outcome<nat>): (r: Outcome<seq<Record>>)
    ensures r.Done? ==>
      && |r.value| == |users|
      && forall i :: 0 <= i < |users| ==> r.value[i].username == users[i]
  {
    if users == [] then Done([])
    else
      match FetchAll(users[..|users| - 1], fetch)
      case Failed(f) => Failed(f)
      case Done(records) =>
        var user := users[|users| - 1];
        match fetch(user)
        case Failed(f) => Failed(f)
        case Done(total) => Done(records + [Record(user, total)])
  }

  /** `getUserContributions` for the configured credentials. */
  function UserFetch(date: string, username: string, password: string, network: Request -> Reply)
    : string -> Outcome<nat>
  {
    user => UserTotal(user, date, username, password, network)
  }

  /** Every user's record holds that user's own total. */
  lemma {:induction false} FetchAllTotals(users: seq<string>, fetch: string -> Outcome<nat>)
    requires FetchAll(users, fetch).Done?
    ensures forall i :: 0 <= i < |users| ==> fetch(users[i]) == Done(FetchAll(users, fetch).value[i].total)
    decreases |users|
  {
    if users != [] {
      var init := users[..|users| - 1];
      FetchAllTotals(init, fetch);
      forall i | 0 <= i < |init| ensures users[i] == init[i] { }
    }
  }

  /** The run stops at the first failing user: that failure is the result. */
  lemma {:induction false} FetchAllStops(users: seq<string>, i: nat, fetch: string -> Outcome<nat>)
    requires i <= |users| && FetchAll(users[..i], fetch).Failed?
    ensures FetchAll(users, fetch) == FetchAll(users[..i], fetch)
    decreases |users| - i
  {
    if i < |users| {
      var next := users[..i + 1];
      assert next[..i] == users[..i];
      FetchAllStops(users, i + 1, fetch);
    } else {
      assert users[..i] == users;
    }
  }

  lemma FetchAllStep(users: seq<string>, i: nat, fetch: string -> Outcome<nat>)
    requires i < |users|
    ensures var next := users[..i + 1];
      FetchAll(next, fetch) == match FetchAll(users[..i], fetch)
        case Failed(f) => Failed(f)
        case Done(records) =>
          match fetch(users[i])
          case Failed(f) => Failed(f)
          case Done(total) => Done(records + [Record(users[i], total)])
  {
    var next := users[..i + 1];
    assert next[..i] == users[..i] && next[i] == users[i];
  }

  /** The loop of `getContriubtions`: `totalsByUser.push({username, total})`
      for each user in turn, stopping at the first failure. */
  method FetchTotals(users: seq<string>, date: string, username: string, password: string,
                     network: Request -> Reply) returns (r: Outcome<seq<Record>>)
    ensures r == FetchAll(users, UserFetch(date, username, password, network))
  {
    ghost var fetch := UserFetch(date, username, password, network);
    var totalsByUser: seq<Record> := [];
    for i := 0 to |users|
      invariant FetchAll(users[..i], fetch) == Done(totalsByUser)
    {
      var total := GetUserContributions(users[i], date, username, password, network);
      assert fetch(users[i]) == total;
      FetchAllStep(users, i, fetch);
      if total.Failed? {
        FetchAllStops(users, i + 1, fetch);
        return Failed(total.failure);
      }
      totalsByUser := totalsByUser + [Record(users[i], total.value)];
    }
    assert users[..|users|] == users;
    r := Done(totalsByUser);
  }

  /** `getContriubtions`: fetch every user's total, sort `totalsByUser` in
      place, store it in the snapshots under `today`, and save the snapshots
      when `write` is set. A failure leaves the snapshots as they were. */
  method GetContributions(users: seq<string>, today: string, username: string, password: string,
                          network: Request -> Reply, snapshot: Snapshot, write: bool)
    returns (r: Outcome<seq<Record>>, merged: Snapshot, saved: Option<Snapshot>)
    ensures var fetched := FetchAll(users, UserFetch(today, username, password, network));
      && (fetched.Failed? ==> r == fetched && merged == snapshot && saved == None)
      && (fetched.Done? ==>
            && r == Done(SortByTotal(fetched.value))
            && merged == snapshot[today := SortByTotal(fetched.value)]
            && saved == (if write then Some(merged) else None))
  {
    var fetched := FetchTotals(users, today, username, password, network);
    if fetched.Failed? {
      return fetched, snapshot, None;
    }
    var records := fetched.value;
    var totalsByUser := new Record[|records|](i requires 0 <= i < |records| => records[i]);
    assert totalsByUser[..] == records;
    SortTotals(totalsByUser);
    var sorted := totalsByUser[..];
    merged := snapshot[today := sorted];
    saved := if write then Some(merged) else None;
    r := Done(sorted);
  }

  /** One user's two lines: `<name> - <total>` and `--` with the changes. */
  function Line(record: Record, changes: seq<int>): string {
    record.username + " - " + NatToString(record.total) + "\n--"
      + Join(seq(|changes|, i requires 0 <= i < |changes| => IntToString(changes[i])), " ")
  }

  /** The lines of the second `console.log`, or `None` where a user has no
      history and `userHistory[i.username].join` throws. */
  function Render(records: seq<Record>, history: map<string, seq<int>>): (r: Option<string>)
    ensures r.None? <==> exists i :: 0 <= i < |records| && records[i].username !in history
  {
    if exists i :: 0 <= i < |records| && records[i].username !in history then None
    else Some(Join(seq(|records|, i requires 0 <= i < |records| => Line(records[i], history[records[i].username])), "\n"))
  }

  /** One record with its history renders as its own two lines. */
  lemma RenderOne(record: Record, history: map<string, seq<int>>)
    requires record.username in history
    ensures Render([record], history) == Some(Line(record, history[record.username]))
  {
  }

  /** On the first run nothing has been saved, no user has a history, and the
      listing fails after the header (the snapshot is still saved). */
  lemma FirstRunHasNoHistory(records: seq<Record>)
    requires records != []
    ensures History(map[]) == map[]
    ensures Render(records, History(map[])) == None
  {
    assert RecentKeys({}) == [];
    assert records[0].username !in History(map[]);
  }

  /** Today's snapshot, when its key is later than every saved one, is the
      newest of the snapshots the next run reads. */
  lemma MergedIsRecent(snapshot: Snapshot, today: string, records: seq<Record>)
    requires forall k :: k in snapshot ==> LexLess(k, today)
    ensures var r := RecentKeys(snapshot[today := records].Keys);
      r != [] && r[|r| - 1] == today
  {
    var ks := snapshot[today := records].Keys;
    var s := SortedKeys(ks);
    assert today in s;
    var p :| 0 <= p < |s| && s[p] == today;
    if p < |s| - 1 {
      var last := s[|s| - 1];
      assert LexLess(today, last);
      assert last in s;
      LexLessIrreflexive(today);
      LexLessTotal(today, last);
    }
  }

  /** What the second `console.log` prints: the rendered lines and a line
      break, or nothing where rendering throws. */
  function Listing(records: seq<Record>, history: map<string, seq<int>>): string {
    match Render(records, history)
    case None => ""
    case Some(text) => text + "\n"
  }

  /** The whole script: the banner for a missing name, then the history of
      the saved snapshots (read before today's totals are added), then
      today's totals; the snapshots are saved unless switched off. A failed
      request ends the run after the banner, with nothing saved. A user
      without a history makes the rendering throw after the snapshots are
      saved and the heading is printed, so the heading is the last output. */
  method Run(env: map<string, string>, args: seq<string>, snapshot: Snapshot, now: Date,
             network: Request -> Reply) returns (output: string, saved: Option<Snapshot>)
    ensures var username := Setting(env, "USERNAME");
      var today := DateFormat(KeyFormat, now);
      var fetched := FetchAll(CheckUsers(args, env), UserFetch(today, username, Setting(env, "PERSONAL_ACCESS_TOKEN"), network));
      && (fetched.Failed? ==> output == Banner(username) && saved == None)
      && (fetched.Done? ==>
            && saved == (if WriteFlag(args) then Some(snapshot[today := SortByTotal(fetched.value)]) else None)
            && output == Banner(username) + "Contributions\n---\n\n"
                 + Listing(SortByTotal(fetched.value), History(snapshot)))
  {
    var username := Setting(env, "USERNAME");
    var password := Setting(env, "PERSONAL_ACCESS_TOKEN");
    var userAgent := username;
    output := Banner(userAgent);
    var checkUsers := CheckUsers(args, env);
    var writeFile := WriteFlag(args);
    var today := DateFormat(KeyFormat, now);
    var userHistory := GetOrderedHistory(snapshot);
    var contributions, merged;
    contributions, merged, saved := GetContributions(checkUsers, today, username, password, network, snapshot, writeFile);
    if contributions.Failed? {
      return;
    }
    // `console.log` ends each of its two outputs with a line break.
    output := output + "Contributions\n---\n\n" + Listing(contributions.value, userHistory);
  }
}
