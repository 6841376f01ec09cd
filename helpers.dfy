/** `_helpers.js`: the `.env` reader, the strftime-like `dateFormat`, and
    the request side of `getContent` (header map, transport choice, status
    classification and the shape of the resolved value). */
module Helpers {
  import opened JsText
  import opened JsObject
  import Base64

  // ---------------------------------------------------------------------------
  // _parseEnv

  /** A line yields an entry when, trimmed, it is not empty, does not start
      with `#` and contains `=`. */
  predicate Contributes(line: string) {
    var t := Trim(line);
    t != "" && t[0] != '#' && IndexOf(t, "=").Some?
  }

  /** The entry of a contributing line: the trimmed text before the first
      `=` is the key, everything after it the value. Nothing inside is
      trimmed again, and the value may hold further `=`. */
  function Entry(line: string): (e: (string, string))
    requires Contributes(line)
    ensures e.0 + "=" + e.1 == Trim(line)
    ensures '=' !in e.0
  {
    var t := Trim(line);
    var i := IndexOf(t, "=").value;
    IndexOfChar(t, '=', i);
    (t[..i], t[i + 1..])
  }

  /** `lines.filter(...)`: the contributing lines, in their order. */
  function Kept(lines: seq<string>): (r: seq<string>)
    ensures |r| <= |lines|
    ensures forall i :: 0 <= i < |r| ==> Contributes(r[i])
  {
    if lines == [] then []
    else
      var last := lines[|lines| - 1];
      Kept(lines[..|lines| - 1]) + (if Contributes(last) then [last] else [])
  }

  /** The assignments the `forEach` callback makes. */
  function Entries(kept: seq<string>): (r: seq<(string, string)>)
    requires forall i :: 0 <= i < |kept| ==> Contributes(kept[i])
    ensures |r| == |kept| && forall i :: 0 <= i < |kept| ==> r[i] == Entry(kept[i])
  {
    seq(|kept|, i requires 0 <= i < |kept| => Entry(kept[i]))
  }

  /** The dictionary a file's lines give. */
  function EnvOf(lines: seq<string>): map<string, string> {
    Assign(Entries(Kept(lines)))
  }

  /** `_parseEnv`: `content` is the file's text, or `None` when the file does
      not exist or cannot be read (both give the empty dictionary). */
  method ParseEnv(content: Option<string>) returns (env: map<string, string>)
    ensures content.None? ==> env == map[]
    ensures content.Some? ==> env == EnvOf(Split(content.value, '\n'))
  {
    env := map[];
    if content.None? {
      return;
    }
    var lines := Split(content.value, '\n');
    var kept: seq<string> := [];
    for i := 0 to |lines|
      invariant kept == Kept(lines[..i])
    {
      assert lines[..i + 1][..i] == lines[..i];
      if Contributes(lines[i]) {
        kept := kept + [lines[i]];
      }
    }
    assert lines[..|lines|] == lines;
    ghost var pairs := Entries(kept);
    for j := 0 to |kept|
      invariant env == Assign(pairs[..j])
    {
      var (key, value) := Entry(kept[j]);
      AssignStep(pairs, j);
      env := env[key := value];
    }
    assert pairs[..|kept|] == pairs;
  }

  /** The filter keeps exactly the contributing lines, in order. */
  lemma {:induction false} KeptAppend(a: seq<string>, b: seq<string>)
    ensures Kept(a + b) == Kept(a) + Kept(b)
    decreases |b|
  {
    if b == [] {
      assert a + b == a;
    } else {
      var b' := b[..|b| - 1];
      assert (a + b)[..|a + b| - 1] == a + b';
      KeptAppend(a, b');
    }
  }

  lemma {:induction false} KeptMembers(lines: seq<string>, line: string)
    ensures line in Kept(lines) <==> line in lines && Contributes(line)
    decreases |lines|
  {
    if lines != [] {
      var init := lines[..|lines| - 1];
      KeptMembers(init, line);
      assert lines == init + [lines[|lines| - 1]];
    }
  }

  /** Every key in the dictionary comes from some contributing line. */
  lemma EnvKeyFromLine(lines: seq<string>, key: string) returns (j: nat)
    requires key in EnvOf(lines)
    ensures j < |lines| && Contributes(lines[j]) && Entry(lines[j]).0 == key
  {
    var kept := Kept(lines);
    var pairs := Entries(kept);
    AssignKeys(pairs, key);
    var i :| 0 <= i < |pairs| && pairs[i].0 == key;
    var line := kept[i];
    assert Entry(line).0 == key;
    KeptMembers(lines, line);
    j :| 0 <= j < |lines| && lines[j] == line;
  }

  /** Every contributing line's key is in the dictionary. */
  lemma EnvKeyOfLine(lines: seq<string>, i: nat)
    requires i < |lines| && Contributes(lines[i])
    ensures Entry(lines[i]).0 in EnvOf(lines)
  {
    var kept := Kept(lines);
    var pairs := Entries(kept);
    KeptMembers(lines, lines[i]);
    var j :| 0 <= j < |kept| && kept[j] == lines[i];
    assert pairs[j] == Entry(lines[i]);
    AssignKeys(pairs, Entry(lines[i]).0);
  }

  /** A key is present exactly when some contributing line carries it. */
  lemma EnvKeys(lines: seq<string>, key: string)
    ensures key in EnvOf(lines) <==>
      exists i :: 0 <= i < |lines| && Contributes(lines[i]) && Entry(lines[i]).0 == key
  {
    if key in EnvOf(lines) {
      var j := EnvKeyFromLine(lines, key);
    } else {
      forall i | 0 <= i < |lines| && Contributes(lines[i])
        ensures Entry(lines[i]).0 != key
      {
        EnvKeyOfLine(lines, i);
      }
    }
  }

  /** Among the kept lines, the last one carrying a key decides its value:
      every earlier line with the same key is overwritten. */
  lemma EnvLastWins(lines: seq<string>, i: nat)
    requires i < |Kept(lines)|
    requires forall j :: i < j < |Kept(lines)| ==> Entry(Kept(lines)[j]).0 != Entry(Kept(lines)[i]).0
    ensures Entry(Kept(lines)[i]).0 in EnvOf(lines)
    ensures EnvOf(lines)[Entry(Kept(lines)[i]).0] == Entry(Kept(lines)[i]).1
  {
    AssignLastWins(Entries(Kept(lines)), i);
  }

  /** A line that does not contribute leaves the dictionary as it is,
      wherever it appears. */
  lemma EnvIgnores(before: seq<string>, line: string, after: seq<string>)
    requires !Contributes(line)
    ensures EnvOf(before + [line] + after) == EnvOf(before + after)
  {
    var k0, k1 := Kept(before), Kept(after);
    KeptAppend(before + [line], after);
    KeptAppend(before, [line]);
    KeptAppend(before, after);
    assert [line][..0] == [];
    assert Kept([line]) == [];
    assert Kept(before + [line]) == k0 + [] == k0;
    assert Kept(before + [line] + after) == k0 + k1 == Kept(before + after);
  }

  /** Spaces around `=` stay in the key and the value. */
  lemma EnvInnerSpaces()
    ensures Contributes("A = b") && Entry("A = b") == ("A ", " b")
  {
    var t := Trim("A = b");
    assert TrimStart("A = b") == "A = b";
    assert TrimEnd("A = b") == "A = b";
    assert OccursAt(t, "=", 2);
    assert !OccursAt(t, "=", 0) && !OccursAt(t, "=", 1);
    assert IndexOf(t, "=") == Some(2);
    assert t[..2] == "A " && t[3..] == " b";
  }

  // ---------------------------------------------------------------------------
  // dateFormat

  /** The field values a JavaScript `Date` returns from its getters (local
      or UTC): `month` is 0-based as `getMonth()` gives it. */
  datatype Date = Date(year: int, month: nat, day: nat, hours: nat, minutes: nat, seconds: nat)

  /** The ranges the getters keep to. */
  predicate ValidDate(d: Date) {
    d.month < 12 && 1 <= d.day <= 31 && d.hours < 24 && d.minutes < 60 && d.seconds < 60
  }

  /** `getMonth() + 1`: the month as it is written, from 1. */
  function MonthNumber(d: Date): nat {
    1 + d.month
  }

  /** A field written as two digits: the tens and the units of `n`. */
  function Pad2(n: nat): (r: string)
    ensures |r| == 2 && AllDigits(r)
  {
    [DigitChar((n / 10) % 10), DigitChar(n % 10)]
  }

  /** The two digits denote the field modulo 100. */
  lemma Pad2Value(n: nat)
    ensures DigitsValue(Pad2(n)) == n % 100
  {
    var r := Pad2(n);
    assert r[..1] == [r[0]] && [r[0]][..0] == [];
    assert DigitsValue([r[0]]) == (n / 10) % 10;
    assert DigitsValue(r) == DigitsValue([r[0]]) * 10 + n % 10;
    LastTwoDigits(n);
  }

  lemma LastTwoDigits(n: nat)
    ensures ((n / 10) % 10) * 10 + n % 10 == n % 100
  {
  }

  /** `Pad2` is what the source computes, `('0' + n).slice(-2)`: the last
      two characters of `n` written after a `0`. */
  lemma Pad2IsZeroPrefixSlice(n: nat)
    ensures var s := "0" + NatToString(n); Pad2(n) == s[|s| - 2..]
  {
    var s := "0" + NatToString(n);
    if n >= 10 {
      var p := NatToString(n / 10);
      assert NatToString(n) == p + [DigitChar(n % 10)];
      assert DigitValue(p[|p| - 1]) == (n / 10) % 10;
      assert s[|s| - 2..] == [p[|p| - 1], DigitChar(n % 10)];
    }
  }

  predicate IsCode(c: char) {
    c == 'Y' || c == 'm' || c == 'd' || c == 'H' || c == 'M' || c == 'S'
  }

  /** What one `%<code>` token becomes: the year unpadded, every other field
      as two digits, the month shifted to 1-based. The last case cannot arise
      from the pattern; it drops the `%`. */
  function TokenText(code: char, d: Date): string {
    match code
    case 'Y' => IntToString(d.year)
    case 'm' => Pad2(MonthNumber(d))
    case 'd' => Pad2(d.day)
    case 'H' => Pad2(d.hours)
    case 'M' => Pad2(d.minutes)
    case 'S' => Pad2(d.seconds)
    case _ => [code]
  }

  /** `fstr.replace(/%[YmdHMS]/g, callback)`: scanning left to right, each
      `%` followed by a code is replaced by what the callback gives for the
      code; any other character, including a `%` not followed by a code, is
      copied. */
  function ReplaceCodes(fstr: string, callback: char -> string): string
    decreases |fstr|
  {
    if fstr == [] then ""
    else if |fstr| >= 2 && fstr[0] == '%' && IsCode(fstr[1]) then callback(fstr[1]) + ReplaceCodes(fstr[2..], callback)
    else [fstr[0]] + ReplaceCodes(fstr[1..], callback)
  }

  /** `dateFormat(fstr, date)`. */
  function DateFormat(fstr: string, d: Date): string {
    ReplaceCodes(fstr, code => TokenText(code, d))
  }

  /** A format can be cut anywhere that does not separate a `%` from what
      follows it: the two halves are replaced independently. */
  lemma {:induction false} ReplaceCodesAppend(f: string, g: string, callback: char -> string)
    requires f == [] || f[|f| - 1] != '%'
    ensures ReplaceCodes(f + g, callback) == ReplaceCodes(f, callback) + ReplaceCodes(g, callback)
    decreases |f|
  {
    if f == [] {
      assert f + g == g;
    } else if |f| >= 2 && f[0] == '%' && IsCode(f[1]) {
      assert (f + g)[2..] == f[2..] + g;
      ReplaceCodesAppend(f[2..], g, callback);
    } else {
      assert (f + g)[1..] == f[1..] + g;
      if |f| == 1 {
        assert f[0] != '%';
      }
      ReplaceCodesAppend(f[1..], g, callback);
    }
  }

  lemma DateFormatAppend(f: string, g: string, d: Date)
    requires f == [] || f[|f| - 1] != '%'
    ensures DateFormat(f + g, d) == DateFormat(f, d) + DateFormat(g, d)
  {
    ReplaceCodesAppend(f, g, code => TokenText(code, d));
  }

  lemma DateFormatToken(code: char, d: Date)
    requires IsCode(code)
    ensures DateFormat(['%', code], d) == TokenText(code, d)
  {
    var callback := c => TokenText(c, d);
    var f := ['%', code];
    assert f[2..] == [];
    assert ReplaceCodes(f, callback) == callback(code) + ReplaceCodes([], callback);
  }

  lemma DateFormatLiteral(c: char, d: Date)
    ensures DateFormat([c], d) == [c]
  {
    var callback := code => TokenText(code, d);
    assert [c][1..] == [];
    assert ReplaceCodes([c], callback) == [c] + ReplaceCodes([], callback);
  }

  /** The snapshot-key format of the contributions script. */
  const KeyFormat: string := "%Y-%m-%d %H:%M"

  /** The printed blocks of a key: year, month, day, hours, minutes. */
  datatype Blocks = Blocks(year: string, month: string, day: string, hours: string, minutes: string)

  /** A key put together from its blocks and separators. */
  function Key(p: Blocks): string {
    p.year + ("-" + (p.month + ("-" + (p.day + (" " + (p.hours + (":" + p.minutes)))))))
  }

  function BlocksOf(d: Date): Blocks {
    Blocks(IntToString(d.year), Pad2(MonthNumber(d)), Pad2(d.day), Pad2(d.hours), Pad2(d.minutes))
  }

  /** The text a key is made of, block by block. */
  function KeyText(d: Date): string {
    Key(BlocksOf(d))
  }

  lemma KeyFormatBlocks(d: Date)
    ensures DateFormat(KeyFormat, d) == KeyText(d)
  {
    var Y, m, dd, H, M := "%Y", "%m", "%d", "%H", "%M";
    assert KeyFormat == Y + ("-" + (m + ("-" + (dd + (" " + (H + (":" + M)))))));
    DateFormatToken('Y', d);
    DateFormatToken('m', d);
    DateFormatToken('d', d);
    DateFormatToken('H', d);
    DateFormatToken('M', d);
    DateFormatLiteral('-', d);
    DateFormatLiteral(' ', d);
    DateFormatLiteral(':', d);
    DateFormatAppend(":", M, d);
    DateFormatAppend(H, ":" + M, d);
    DateFormatAppend(" ", H + (":" + M), d);
    DateFormatAppend(dd, " " + (H + (":" + M)), d);
    DateFormatAppend("-", dd + (" " + (H + (":" + M))), d);
    DateFormatAppend(m, "-" + (dd + (" " + (H + (":" + M)))), d);
    DateFormatAppend("-", m + ("-" + (dd + (" " + (H + (":" + M))))), d);
    DateFormatAppend(Y, "-" + (m + ("-" + (dd + (" " + (H + (":" + M)))))), d);
  }

  /** Chronological order of the fields a key shows, to the minute. */
  predicate Before(a: Date, b: Date) {
    || a.year < b.year
    || (a.year == b.year && a.month < b.month)
    || (a.year == b.year && a.month == b.month && a.day < b.day)
    || (a.year == b.year && a.month == b.month && a.day == b.day && a.hours < b.hours)
    || (a.year == b.year && a.month == b.month && a.day == b.day && a.hours == b.hours
        && a.minutes < b.minutes)
  }

  predicate SameMinute(a: Date, b: Date) {
    a.year == b.year && a.month == b.month && a.day == b.day && a.hours == b.hours
    && a.minutes == b.minutes
  }

  /** Two digit strings of one width compare as the numbers they denote. */
  lemma DigitBlockOrder(x: string, y: string, xv: nat, yv: nat)
    requires |x| == |y| && AllDigits(x) && AllDigits(y)
    requires DigitsValue(x) == xv && DigitsValue(y) == yv
    ensures LexLess(x, y) <==> xv < yv
    ensures x == y <==> xv == yv
  {
    LexLessDigits(x, y);
  }

  lemma Pad2Order(a: nat, b: nat)
    requires a < 100 && b < 100
    ensures LexLess(Pad2(a), Pad2(b)) <==> a < b
    ensures Pad2(a) == Pad2(b) <==> a == b
  {
    Pad2Exact(a);
    Pad2Exact(b);
    DigitBlockOrder(Pad2(a), Pad2(b), a, b);
  }

  lemma Pad2Exact(n: nat)
    requires n < 100
    ensures DigitsValue(Pad2(n)) == n
  {
    Pad2Value(n);
  }

  /** Step of the ordering proofs: one block of equal width, then the rest. */
  lemma BlockStep(x: string, y: string, u: string, v: string, xv: int, yv: int)
    requires |x| == |y|
    requires LexLess(x, y) <==> xv < yv
    requires x == y <==> xv == yv
    ensures LexLess(x + u, y + v) <==> xv < yv || (xv == yv && LexLess(u, v))
    ensures x + u == y + v <==> xv == yv && u == v
  {
    LexLessConcat(x, u, y, v);
    if x + u == y + v {
      assert (x + u)[..|x|] == x && (y + v)[..|y|] == y;
      assert (x + u)[|x|..] == u && (y + v)[|y|..] == v;
    }
  }

  lemma SepStep(c: char, u: string, v: string)
    ensures LexLess([c] + u, [c] + v) <==> LexLess(u, v)
    ensures [c] + u == [c] + v <==> u == v
  {
    BlockStep([c], [c], u, v, 0, 0);
    LexLessIrreflexive([c]);
  }

  /** Two blocks of one width that order like two values. */
  predicate OrdersLike(x: string, y: string, xv: int, yv: int) {
    && |x| == |y|
    && (LexLess(x, y) <==> xv < yv)
    && (x == y <==> xv == yv)
  }

  /** Each block of `p` against the same block of `q` orders like the field
      it shows; the last block need not be of one width. */
  predicate BlocksLike(p: Blocks, q: Blocks, a: Date, b: Date) {
    && OrdersLike(p.year, q.year, a.year, b.year)
    && OrdersLike(p.month, q.month, MonthNumber(a), MonthNumber(b))
    && OrdersLike(p.day, q.day, a.day, b.day)
    && OrdersLike(p.hours, q.hours, a.hours, b.hours)
    && (LexLess(p.minutes, q.minutes) <==> a.minutes < b.minutes)
    && (p.minutes == q.minutes <==> a.minutes == b.minutes)
  }

  /** Keys whose blocks order like the fields order like the moments. */
  lemma KeyOrder(p: Blocks, q: Blocks, a: Date, b: Date)
    requires BlocksLike(p, q, a, b)
    ensures LexLess(Key(p), Key(q)) <==> Before(a, b)
    ensures Key(p) == Key(q) <==> SameMinute(a, b)
  {
    var mi, mj := ":" + p.minutes, ":" + q.minutes;
    SepStep(':', p.minutes, q.minutes);
    var hi, hj := p.hours + mi, q.hours + mj;
    BlockStep(p.hours, q.hours, mi, mj, a.hours, b.hours);
    SepStep(' ', hi, hj);
    var di, dj := p.day + (" " + hi), q.day + (" " + hj);
    BlockStep(p.day, q.day, " " + hi, " " + hj, a.day, b.day);
    SepStep('-', di, dj);
    var ni, nj := p.month + ("-" + di), q.month + ("-" + dj);
    BlockStep(p.month, q.month, "-" + di, "-" + dj, MonthNumber(a), MonthNumber(b));
    SepStep('-', ni, nj);
    BlockStep(p.year, q.year, "-" + ni, "-" + nj, a.year, b.year);
  }

  lemma Pad2OrdersLike(a: nat, b: nat)
    requires a < 100 && b < 100
    ensures OrdersLike(Pad2(a), Pad2(b), a, b)
  {
    Pad2Order(a, b);
  }

  lemma YearOrdersLike(a: int, b: int)
    requires 1000 <= a <= 9999 && 1000 <= b <= 9999
    ensures OrdersLike(IntToString(a), IntToString(b), a, b)
  {
    var ya, yb := NatToString(a), NatToString(b);
    NatToStringFourDigits(a);
    NatToStringFourDigits(b);
    DigitBlockOrder(ya, yb, a, b);
  }

  lemma DateBlocksLike(a: Date, b: Date)
    requires ValidDate(a) && ValidDate(b)
    requires 1000 <= a.year <= 9999 && 1000 <= b.year <= 9999
    ensures BlocksLike(BlocksOf(a), BlocksOf(b), a, b)
  {
    YearOrdersLike(a.year, b.year);
    Pad2OrdersLike(MonthNumber(a), MonthNumber(b));
    Pad2OrdersLike(a.day, b.day);
    Pad2OrdersLike(a.hours, b.hours);
    Pad2Order(a.minutes, b.minutes);
  }

  /** For four-digit years, comparing the texts of two keys is the same as
      comparing the moments they stand for. */
  lemma KeyTextOrder(a: Date, b: Date)
    requires ValidDate(a) && ValidDate(b)
    requires 1000 <= a.year <= 9999 && 1000 <= b.year <= 9999
    ensures LexLess(KeyText(a), KeyText(b)) <==> Before(a, b)
    ensures KeyText(a) == KeyText(b) <==> SameMinute(a, b)
  {
    DateBlocksLike(a, b);
    KeyOrder(BlocksOf(a), BlocksOf(b), a, b);
  }

  /** For four-digit years, comparing two snapshot keys as strings is the
      same as comparing the moments they stand for; equal keys mean the same
      minute. The history ordering relies on this. */
  lemma KeyOrderIsChronological(a: Date, b: Date)
    requires ValidDate(a) && ValidDate(b)
    requires 1000 <= a.year <= 9999 && 1000 <= b.year <= 9999
    ensures LexLess(DateFormat(KeyFormat, a), DateFormat(KeyFormat, b)) <==> Before(a, b)
    ensures DateFormat(KeyFormat, a) == DateFormat(KeyFormat, b) <==> SameMinute(a, b)
  {
    KeyFormatBlocks(a);
    KeyFormatBlocks(b);
    KeyTextOrder(a, b);
  }

  // ---------------------------------------------------------------------------
  // getContent

  /** The argument of `getContent`: a bare URL string, or an object whose
      absent fields are `None`. Fields other than the four named ones are
      `rest` and are echoed back. */
  datatype ContentArg =
    | UrlText(url: string)
    | ContentFields(url: string, username: Option<string>, password: Option<string>,
                    userAgent: Option<string>, rest: map<string, string>)

  datatype Normalised = Normalised(url: string, username: string, password: string,
                                   userAgent: string, rest: map<string, string>)

  /** A string stands for `{url: s}`; a missing `username`, `password` or
      `userAgent` defaults to the empty string. */
  function Normalise(arg: ContentArg): (n: Normalised)
    ensures n.url == arg.url
    ensures arg.UrlText? ==> n.username == "" && n.password == "" && n.userAgent == "" && n.rest == map[]
    ensures arg.ContentFields? ==>
      && (arg.username.None? ==> n.username == "") && (arg.username.Some? ==> n.username == arg.username.value)
      && (arg.password.None? ==> n.password == "") && (arg.password.Some? ==> n.password == arg.password.value)
      && (arg.userAgent.None? ==> n.userAgent == "") && (arg.userAgent.Some? ==> n.userAgent == arg.userAgent.value)
      && n.rest == arg.rest
  {
    match arg
    case UrlText(u) => Normalised(u, "", "", "", map[])
    case ContentFields(u, user, pass, agent, rest) =>
      Normalised(u, OrEmpty(user), OrEmpty(pass), OrEmpty(agent), rest)
  }

  function OrEmpty(o: Option<string>): string {
    if o.Some? then o.value else ""
  }

  /** The value of an HTTP Basic `Authorization` header (section 2 of
      RFC 7617): `Basic ` and the base64 of the UTF-8 of `user:password`. */
  function BasicAuth(username: string, password: string): string {
    "Basic " + Base64.Encode(Base64.Utf8(username + ":" + password))
  }

  /** The credentials' bytes: the user-id's, one colon byte, the password's. */
  lemma CredentialBytes(username: string, password: string)
    ensures Base64.Utf8(username + ":" + password) == Base64.Utf8(username) + [0x3A] + Base64.Utf8(password)
  {
    var t := ":" + password;
    assert username + ":" + password == username + t;
    Base64.Utf8Append(username, t);
    Base64.Utf8Append(":", password);
    Base64.Utf8Colon();
  }

  /** A receiver can take the credentials back: the base64 part decodes
      to the UTF-8 user-id, one colon byte, and the UTF-8 password; when the
      user-id has no colon, the first colon byte of the decoded credentials
      is exactly where the user-id ends. */
  lemma BasicAuthRecoverable(username: string, password: string)
    ensures var v := BasicAuth(username, password);
      && v[..6] == "Basic "
      && Base64.Decode(v[6..]) == Some(Base64.Utf8(username) + [0x3A] + Base64.Utf8(password))
    ensures ':' !in username ==> 0x3A !in Base64.Utf8(username)
  {
    var b := Base64.Utf8(username + ":" + password);
    var e := Base64.Encode(b);
    var v := "Basic " + e;
    assert v == BasicAuth(username, password);
    CredentialBytes(username, password);
    Base64.EncodeRoundTrip(b);
    assert v[..6] == "Basic " && v[6..] == e;
    Base64.Utf8AsciiByte(username, ':');
  }

  /** The header map `getContent` sends. */
  function Headers(n: Normalised): (h: map<string, string>)
    ensures "Content-Type" in h && h["Content-Type"] == "application/json"
    ensures "User-Agent" in h && h["User-Agent"] == n.userAgent
    ensures "Cache-Control" in h && h["Cache-Control"] == "no-cache, no-store, must-revalidate"
    ensures ("Authorization" in h) <==> n.username != "" && n.password != ""
    ensures "Authorization" in h ==> h["Authorization"] == BasicAuth(n.username, n.password)
    ensures h.Keys <= {"Content-Type", "User-Agent", "Cache-Control", "Authorization"}
  {
    var base := map["Content-Type" := "application/json", "User-Agent" := n.userAgent,
                     "Cache-Control" := "no-cache, no-store, must-revalidate"];
    if n.username != "" && n.password != "" then
      base["Authorization" := BasicAuth(n.username, n.password)]
    else base
  }

  datatype Scheme = Http | Https

  /** `url.startsWith("https")` picks the encrypted transport. */
  function SchemeFor(url: string): (s: Scheme)
    ensures s == Https <==> |url| >= 5 && url[..5] == "https"
  {
    if StartsWith(url, "https") then Https else Http
  }

  /** What is handed to the transport: everything the request depends on. */
  datatype Request = Request(scheme: Scheme, url: string, headers: map<string, string>)

  /** What the transport gives back: a response, or a failed connection. */
  datatype Reply =
    | Response(status: int, responseHeaders: map<string, string>, chunks: seq<string>)
    | ConnectionError

  datatype FetchError =
    | StatusError(status: int, responseHeaders: map<string, string>)
    | TransportError

  datatype Result<T> = Ok(value: T) | Err(error: FetchError)

  /** A field of the resolved object: the joined body, the raw response, or
      an echoed input field. */
  datatype Field = Text(text: string) | RawResponse

  predicate IsSuccess(status: int) { 200 <= status <= 299 }

  /** `{body: body.join(""), response, ...rest}`: the spread comes last, so
      an echoed field named `body` or `response` takes that place. */
  function Resolved(chunks: seq<string>, rest: map<string, string>): (o: map<string, Field>)
    ensures o.Keys == {"body", "response"} + rest.Keys
    ensures forall k :: k in rest ==> o[k] == Text(rest[k])
    ensures "body" !in rest ==> o["body"] == Text(Join(chunks, ""))
    ensures "response" !in rest ==> o["response"] == RawResponse
  {
    map["body" := Text(Join(chunks, "")), "response" := RawResponse]
      + map k | k in rest :: Text(rest[k])
  }

  /** How a reply settles the promise: a status outside 200..299 rejects with
      the response, a connection failure rejects, anything else resolves. */
  function Settle(reply: Reply, rest: map<string, string>): (r: Result<map<string, Field>>)
    ensures reply.ConnectionError? ==> r == Err(TransportError)
    ensures reply.Response? && !IsSuccess(reply.status) ==>
      r == Err(StatusError(reply.status, reply.responseHeaders))
    ensures reply.Response? && IsSuccess(reply.status) ==> r == Ok(Resolved(reply.chunks, rest))
  {
    match reply
    case ConnectionError => Err(TransportError)
    case Response(status, hs, chunks) =>
      if !IsSuccess(status) then Err(StatusError(status, hs)) else Ok(Resolved(chunks, rest))
  }

  function RequestFor(arg: ContentArg): Request {
    var n := Normalise(arg);
    Request(SchemeFor(n.url), n.url, Headers(n))
  }

  /** `getContent(contentData)`, with the network as a parameter: exactly one
      request, built from the argument alone. */
  function GetContent(arg: ContentArg, network: Request -> Reply): Result<map<string, Field>> {
    Settle(network(RequestFor(arg)), Normalise(arg).rest)
  }

  /** How the promise of one request ends as the code is written. The
      connection-error listener passes `response` to `reject`, but no
      `response` is in scope there: evaluating the argument throws a
      ReferenceError before `reject` runs, so the promise never settles and
      the exception escapes the listener uncaught. */
  datatype Settlement<T> = Settled(result: Result<T>) | Uncaught

  /** The written outcome next to the intended one: they differ exactly on
      connection failures. */
  function AsWritten<T>(reply: Reply, intended: Result<T>): (s: Settlement<T>)
    ensures s.Uncaught? <==> reply.ConnectionError?
    ensures s.Settled? ==> s.result == intended
  {
    if reply.ConnectionError? then Uncaught else Settled(intended)
  }

  function GetContentAsWritten(arg: ContentArg, network: Request -> Reply): Settlement<map<string, Field>> {
    AsWritten(network(RequestFor(arg)), GetContent(arg, network))
  }

  /** A failed connection: the intended behaviour rejects with a transport
      error, the written one throws instead. */
  lemma ConnectionErrorIsUncaught(arg: ContentArg, network: Request -> Reply)
    requires network(RequestFor(arg)).ConnectionError?
    ensures GetContentAsWritten(arg, network) == Uncaught
    ensures GetContent(arg, network) == Err(TransportError)
  {
  }

  /** Whenever a response arrives, the written code settles as intended. */
  lemma ResponsesSettleAsIntended(arg: ContentArg, network: Request -> Reply)
    requires network(RequestFor(arg)).Response?
    ensures GetContentAsWritten(arg, network) == Settled(GetContent(arg, network))
  {
  }

  /** With empty configuration, as the menu-bar scripts start out, the
      request still goes out, without an `Authorization` header. */
  lemma EmptyCredentialsNoAuthorization(url: string, agent: string)
    ensures "Authorization" !in RequestFor(ContentFields(url, Some(""), Some(""), Some(agent), map[])).headers
    ensures "Authorization" !in RequestFor(UrlText(url)).headers
  {
  }

  // ---------------------------------------------------------------------------
  // the user-agent warning

  /** The warning the contributions and releases scripts print first when
      no user agent is configured; both use the configured user name as
      the user agent. */
  function Banner(userAgent: string): (r: string)
    ensures userAgent == "" ==> r == "Missing User-Agent\n"
    ensures userAgent != "" ==> r == ""
  {
    if userAgent == "" then "Missing User-Agent\n" else ""
  }
}
