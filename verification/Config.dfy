/**
 The values of the hand-written TOML subset of service definitions
 (internal/svcd/config.go): quoted strings, arrays, sizes, numbers and flags.
 */
module Config {
  import opened Common
  import opened Strings

  // ------------------------------------------------------------ small readers

  predicate IsQuote(c: char) {
    c == '"' || c == '\''
  }

  predicate Enclosed(t: string, q: char) {
    t != "" && t[0] == q && t[|t| - 1] == q
  }

  /** unquote; None where it panics. */
  function Unquote(s: string): Option<string> {
    var t := TrimSpace(s);
    if Enclosed(t, '"') || Enclosed(t, '\'')
    then if |t| == 1 then None else Some(t[1..|t| - 1])
    else Some(t)
  }

  /** It panics exactly on a lone quote character. */
  lemma UnquotePanicsExactly(s: string)
    ensures Unquote(s) == None <==> TrimSpace(s) == "\"" || TrimSpace(s) == "'"
  {
  }

  predicate IsDigit(c: char) {
    '0' <= c && c <= '9'
  }

  function DigitValue(c: char): nat
    requires IsDigit(c)
  {
    (c - '0') as int
  }

  predicate AllDigits(s: string) {
    forall i :: 0 <= i < |s| ==> IsDigit(s[i])
  }

  function Value(s: string): (v: int)
    requires AllDigits(s)
    ensures v >= 0
  {
    if s == "" then 0 else 10 * Value(s[..|s| - 1]) + DigitValue(s[|s| - 1])
  }

  predicate FitsInt64(n: int) {
    -0x8000_0000_0000_0000 <= n < 0x8000_0000_0000_0000
  }

  /** strconv.ParseInt(s, 10, 64), and strconv.Atoi on a 64-bit machine. */
  function ParseInt(s: string): Option<int> {
    var signed := s != "" && (s[0] == '-' || s[0] == '+');
    var body := if signed then s[1..] else s;
    if body == "" || !AllDigits(body) then None
    else
      var n: int := if signed && s[0] == '-' then -Value(body) else Value(body);
      if FitsInt64(n) then Some(n) else None
  }

  /** Go's int64 wrap-around. */
  function Wrap64(n: int): (r: int)
    ensures FitsInt64(r)
    ensures FitsInt64(n) ==> r == n
  {
    (n + 0x8000_0000_0000_0000) % 0x1_0000_0000_0000_0000 - 0x8000_0000_0000_0000
  }

  /** strings.TrimRight with a two-letter cutset. */
  function TrimUnits(s: string, a: char, b: char): string {
    if s != "" && (s[|s| - 1] == a || s[|s| - 1] == b) then TrimUnits(s[..|s| - 1], a, b) else s
  }

  const KIB: int := 1024
  const MIB: int := 1024 * 1024
  const GIB: int := 1024 * 1024 * 1024

  predicate HasUnit(upper: string, u: char) {
    HasSuffix(upper, [u]) || HasSuffix(upper, [u, 'B'])
  }

  /** The number once its unit is gone, times the multiplier. */
  function Scaled(body: string, multiplier: int): Option<int> {
    match ParseInt(TrimSpace(body))
    case None => None
    case Some(v) => Some(Wrap64(v * multiplier))
  }

  function ParseMemoryLimit(s: string): Option<int> {
    var t := TrimSpace(s);
    var upper := ToUpper(t);
    if t == "" then Some(0)
    else if HasUnit(upper, 'G') then Scaled(TrimUnits(upper, 'G', 'B'), GIB)
    else if HasUnit(upper, 'M') then Scaled(TrimUnits(upper, 'M', 'B'), MIB)
    else if HasUnit(upper, 'K') then Scaled(TrimUnits(upper, 'K', 'B'), KIB)
    else Scaled(t, 1)
  }

  /** parseBool; None where unquote panics. */
  function ParseBool(s: string): Option<bool> {
    match Unquote(TrimSpace(s))
    case None => None
    case Some(t) => var l := ToLower(t); Some(l == "true" || l == "1" || l == "yes")
  }

  // ---------------------------------------------------------------- parseArray

  datatype Scan = Scan(result: seq<string>, current: string, inQuotes: bool, quoteChar: char, escaped: bool)

  /** Ending an item: blank items are dropped; None where unquote panics. */
  function Flush(st: Scan): Option<Scan> {
    match Unquote(TrimSpace(st.current))
    case None => None
    case Some(item) => Some(st.(result := if item != "" then st.result + [item] else st.result, current := ""))
  }

  /** One turn of the character loop. */
  function Feed(st: Scan, ch: char): Option<Scan> {
    if st.escaped then Some(st.(current := st.current + [ch], escaped := false))
    else if ch == '\\' && st.inQuotes then Some(st.(current := st.current + [ch], escaped := true))
    else if IsQuote(ch) then
      if !st.inQuotes then Some(st.(current := st.current + [ch], inQuotes := true, quoteChar := ch))
      else if ch == st.quoteChar then Some(st.(current := st.current + [ch], inQuotes := false))
      else Some(st.(current := st.current + [ch]))
    else if ch == ',' && !st.inQuotes then Flush(st)
    else Some(st.(current := st.current + [ch]))
  }

  function FeedAll(st: Scan, s: string): Option<Scan>
    decreases |s|
  {
    if s == "" then Some(st)
    else
      match Feed(st, s[0])
      case None => None
      case Some(next) => FeedAll(next, s[1..])
  }

  const EMPTY_SCAN := Scan([], "", false, '\0', false)

  function Finish(st: Scan): Option<seq<string>> {
    if st.current == "" then Some(st.result)
    else
      match Flush(st)
      case None => None
      case Some(last) => Some(last.result)
  }

  function ArrayItems(content: string): Option<seq<string>> {
    match FeedAll(EMPTY_SCAN, content)
    case None => None
    case Some(st) => Finish(st)
  }

  /** parseArray as a function; None where it panics. */
  function ArrayOf(s: string): Option<seq<string>> {
    var t := TrimSpace(s);
    if !HasPrefix(t, "[") || !HasSuffix(t, "]") || |t| < 2 then Some([])
    else
      var content := TrimSpace(t[1..|t| - 1]);
      if content == "" then Some([]) else ArrayItems(content)
  }

  method ParseArray(s: string) returns (r: Option<seq<string>>)
    ensures r == ArrayOf(s)
  {
    var t := TrimSpace(s);
    if !HasPrefix(t, "[") || !HasSuffix(t, "]") || |t| < 2 {
      return Some([]);
    }
    var content := TrimSpace(t[1..|t| - 1]);
    if content == "" {
      return Some([]);
    }
    var st := EMPTY_SCAN;
    var i := 0;
    while i < |content|
      invariant 0 <= i <= |content|
      invariant FeedAll(EMPTY_SCAN, content) == FeedAll(st, content[i..])
    {
      assert content[i..][0] == content[i] && content[i..][1..] == content[i + 1..];
      match Feed(st, content[i]) {
        case None => return None;
        case Some(next) => st := next;
      }
      i := i + 1;
    }
    return Finish(st);
  }

  // ------------------------------------------------- arrays come back as written

  /** How an item of an array is written. */
  datatype Style = Double | Single | Bare

  datatype Item = Item(text: string, style: Style)

  predicate Unescaped(s: string) {
    '"' !in s && '\\' !in s
  }

  function Quoted(s: string): string {
    "\"" + s + "\""
  }

  function Spelled(it: Item): string {
    match it.style
    case Double => Quoted(it.text)
    case Single => "'" + it.text + "'"
    case Bare => it.text
  }

  /** Between quotes `q`: every backslash has a character to escape, and every `q` is escaped. */
  predicate WellEscaped(s: string, q: char) {
    s == "" ||
    if s[0] == '\\' then |s| >= 2 && WellEscaped(s[2..], q) else s[0] != q && WellEscaped(s[1..], q)
  }

  /** Text that needs no quotes: no quote, no comma, no blank at its ends. */
  predicate NeedsNoQuotes(s: string) {
    && s != "" && !IsSpace(s[0]) && !IsSpace(s[|s| - 1])
    && '"' !in s && '\'' !in s && ',' !in s
  }

  predicate Listable(it: Item) {
    match it.style
    case Double => WellEscaped(it.text, '"')
    case Single => WellEscaped(it.text, '\'')
    case Bare => NeedsNoQuotes(it.text)
  }

  predicate AllListable(items: seq<Item>) {
    forall i :: 0 <= i < |items| ==> Listable(items[i])
  }

  /** What an array means: the texts of its items, the empty ones left out. */
  function Texts(items: seq<Item>): seq<string> {
    if items == [] then []
    else
      var it := items[|items| - 1];
      Texts(items[..|items| - 1]) + (if it.text == "" then [] else [it.text])
  }

  function Listed(items: seq<Item>): string {
    if items == [] then ""
    else if |items| == 1 then Spelled(items[0])
    else Listed(items[..|items| - 1]) + ", " + Spelled(items[|items| - 1])
  }

  /** A comma-separated array. */
  function RenderArray(items: seq<Item>): string {
    "[" + Listed(items) + "]"
  }

  lemma {:induction false} FeedConcat(st: Scan, a: string, b: string)
    ensures FeedAll(st, a + b) ==
      match FeedAll(st, a) case None => None case Some(mid) => FeedAll(mid, b)
    decreases |a|
  {
    if a == "" {
      assert a + b == b;
    } else {
      assert (a + b)[0] == a[0] && (a + b)[1..] == a[1..] + b;
      match Feed(st, a[0]) {
        case None =>
        case Some(next) => FeedConcat(next, a[1..], b);
      }
    }
  }

  lemma FeedOne(st: Scan, c: char)
    ensures FeedAll(st, [c]) == Feed(st, c)
  {
  }

  /** Inside quotes well-escaped text is copied, escapes and all. */
  lemma {:induction false} FeedInside(st: Scan, s: string)
    requires st.inQuotes && IsQuote(st.quoteChar) && !st.escaped && WellEscaped(s, st.quoteChar)
    ensures FeedAll(st, s) == Some(st.(current := st.current + s))
    decreases |s|
  {
    if s == "" {
      assert st.current + s == st.current;
    } else {
      var k := if s[0] == '\\' then 2 else 1;
      var next := st.(current := st.current + s[..k]);
      FeedUnit(st, s[..k]);
      FeedInside(next, s[k..]);
      FeedConcat(st, s[..k], s[k..]);
      assert s[..k] + s[k..] == s;
      assert st.current + s[..k] + s[k..] == st.current + s;
    }
  }

  /** One character, or a backslash and the character it escapes. */
  lemma FeedUnit(st: Scan, u: string)
    requires st.inQuotes && IsQuote(st.quoteChar) && !st.escaped
    requires (|u| == 1 && u[0] != '\\' && u[0] != st.quoteChar) || (|u| == 2 && u[0] == '\\')
    ensures FeedAll(st, u) == Some(st.(current := st.current + u))
  {
    FeedOne(st, u[0]);
    if |u| == 1 {
      assert u == [u[0]];
    } else {
      var mid := st.(current := st.current + [u[0]], escaped := true);
      FeedOne(mid, u[1]);
      FeedConcat(st, [u[0]], [u[1]]);
      assert [u[0]] + [u[1]] == u;
      assert st.current + [u[0]] + [u[1]] == st.current + u;
    }
  }

  lemma FeedOpen(st: Scan, q: char)
    requires !st.inQuotes && !st.escaped && IsQuote(q)
    ensures FeedAll(st, [q]) == Some(st.(current := st.current + [q], inQuotes := true, quoteChar := q))
  {
    FeedOne(st, q);
  }

  lemma FeedClose(st: Scan, q: char)
    requires st.inQuotes && !st.escaped && IsQuote(q) && st.quoteChar == q
    ensures FeedAll(st, [q]) == Some(st.(current := st.current + [q], inQuotes := false))
  {
    FeedOne(st, q);
  }

  lemma FeedQuoted(st: Scan, s: string, q: char, t: string)
    requires !st.inQuotes && !st.escaped && IsQuote(q) && WellEscaped(s, q) && t == [q] + s + [q]
    ensures FeedAll(st, t) == Some(st.(current := st.current + t, quoteChar := q))
  {
    var open := st.(current := st.current + [q], inQuotes := true, quoteChar := q);
    var body := open.(current := open.current + s);
    var close := body.(current := body.current + [q], inQuotes := false);
    FeedOpen(st, q);
    FeedInside(open, s);
    FeedClose(body, q);
    FeedThree(st, [q], s, [q], t, open, body, close);
    assert close.current == st.current + t;
  }

  lemma FeedThree(st: Scan, a: string, b: string, c: string, t: string, one: Scan, two: Scan, three: Scan)
    requires t == a + b + c
    requires FeedAll(st, a) == Some(one) && FeedAll(one, b) == Some(two) && FeedAll(two, c) == Some(three)
    ensures FeedAll(st, t) == Some(three)
  {
    FeedConcat(st, a, b);
    FeedConcat(st, a + b, c);
  }

  lemma {:induction false} FeedBare(st: Scan, s: string)
    requires !st.inQuotes && !st.escaped && '"' !in s && '\'' !in s && ',' !in s
    ensures FeedAll(st, s) == Some(st.(current := st.current + s))
    decreases |s|
  {
    if s == "" {
      assert st.current + s == st.current;
    } else {
      assert s[0] in s;
      FeedBare(st.(current := st.current + [s[0]]), s[1..]);
      assert st.current + [s[0]] + s[1..] == st.current + s;
    }
  }

  lemma FeedSpelled(st: Scan, it: Item) returns (next: Scan)
    requires !st.inQuotes && !st.escaped && Listable(it)
    ensures FeedAll(st, Spelled(it)) == Some(next)
    ensures next.result == st.result && next.current == st.current + Spelled(it) && !next.inQuotes && !next.escaped
  {
    match it.style {
      case Double =>
        FeedQuoted(st, it.text, '"', Spelled(it));
        next := st.(current := st.current + Spelled(it), quoteChar := '"');
      case Single =>
        FeedQuoted(st, it.text, '\'', Spelled(it));
        next := st.(current := st.current + Spelled(it), quoteChar := '\'');
      case Bare =>
        FeedBare(st, it.text);
        next := st.(current := st.current + Spelled(it));
    }
  }

  lemma UnquoteQuoted(s: string)
    ensures Unquote(Quoted(s)) == Some(s)
    ensures TrimSpace(Quoted(s)) == Quoted(s) && TrimSpace(" " + Quoted(s)) == Quoted(s)
  {
  }

  /** Unquoting undoes each way of writing an item. */
  lemma UnquoteSpelled(it: Item)
    requires Listable(it)
    ensures Unquote(Spelled(it)) == Some(it.text)
    ensures TrimSpace(Spelled(it)) == Spelled(it) && TrimSpace(" " + Spelled(it)) == Spelled(it)
  {
    var t := Spelled(it);
    match it.style {
      case Double =>
        UnquoteQuoted(it.text);
      case Single =>
        assert t[0] == '\'' && t[|t| - 1] == '\'' && t[1..|t| - 1] == it.text;
        TrimNothing(t);
        TrimOneBlank(t);
      case Bare =>
        assert t[0] in t;
        TrimNothing(t);
        TrimOneBlank(t);
    }
  }

  /** Where the scan stands after a rendered list: all but the last item collected, the last still pending. */
  ghost predicate Pending(items: seq<Item>, st: Scan)
    requires items != []
  {
    var n := |items| - 1;
    && st.result == Texts(items[..n]) && !st.inQuotes && !st.escaped
    && (st.current == Spelled(items[n]) || st.current == " " + Spelled(items[n]))
  }

  lemma FlushText(st: Scan, t: string, item: string)
    requires TrimSpace(st.current) == t && Unquote(t) == Some(item)
    ensures Flush(st) == Some(st.(result := if item != "" then st.result + [item] else st.result, current := ""))
  {
  }

  lemma FlushPending(items: seq<Item>, st: Scan)
    requires items != [] && Pending(items, st) && Listable(items[|items| - 1])
    ensures Flush(st) == Some(st.(result := Texts(items), current := ""))
  {
    var it := items[|items| - 1];
    UnquoteSpelled(it);
    FlushText(st, Spelled(it), it.text);
    TextsLast(items);
  }

  lemma TextsLast(items: seq<Item>)
    requires items != []
    ensures var n := |items| - 1;
      Texts(items) == if items[n].text != "" then Texts(items[..n]) + [items[n].text] else Texts(items[..n])
  {
  }

  lemma {:induction false} FeedListed(items: seq<Item>) returns (st: Scan)
    requires items != [] && AllListable(items)
    ensures FeedAll(EMPTY_SCAN, Listed(items)) == Some(st) && Pending(items, st)
    decreases |items|
  {
    var n := |items| - 1;
    if n == 0 {
      st := FeedSpelled(EMPTY_SCAN, items[0]);
      assert "" + Spelled(items[0]) == Spelled(items[0]);
      assert Texts(items[..0]) == [];
    } else {
      var init := items[..n];
      var mid := FeedListed(init);
      FlushPending(init, mid);
      FeedSeparator(mid, Texts(init));
      st := FeedSpelled(mid.(result := Texts(init), current := " "), items[n]);
      FeedConcat(EMPTY_SCAN, Listed(init), ", ");
      FeedConcat(EMPTY_SCAN, Listed(init) + ", ", Spelled(items[n]));
    }
  }

  lemma FeedSeparator(mid: Scan, items: seq<string>)
    requires !mid.inQuotes && !mid.escaped && Flush(mid) == Some(mid.(result := items, current := ""))
    ensures FeedAll(mid, ", ") == Some(mid.(result := items, current := " "))
  {
    FeedOne(mid, ',');
    var flushed := mid.(result := items, current := "");
    FeedOne(flushed, ' ');
    assert flushed.current + [' '] == " ";
    FeedConcat(mid, [','], [' ']);
    assert [','] + [' '] == ", ";
  }

  lemma SpelledEnds(it: Item)
    requires Listable(it)
    ensures var t := Spelled(it); t != "" && !IsSpace(t[0]) && !IsSpace(t[|t| - 1])
  {
  }

  lemma {:induction false} ListedEnds(items: seq<Item>)
    requires items != [] && AllListable(items)
    ensures var l := Listed(items); l != "" && !IsSpace(l[0]) && !IsSpace(l[|l| - 1])
    decreases |items|
  {
    SpelledEnds(items[|items| - 1]);
    if |items| > 1 {
      ListedEnds(items[..|items| - 1]);
    }
  }

  /**
   Any array comes back as it was meant, whether its items are in double quotes, in
   single quotes or bare: commas, the other quote and escapes inside quotes are kept
   as they stand, and empty items are dropped.
   */
  lemma ArrayRoundTrip(items: seq<Item>)
    requires AllListable(items)
    ensures ArrayOf(RenderArray(items)) == Some(Texts(items))
  {
    var t := RenderArray(items);
    TrimNothing(t);
    assert t[1..|t| - 1] == Listed(items);
    if items != [] {
      ListedEnds(items);
      TrimNothing(Listed(items));
      var st := FeedListed(items);
      FlushPending(items, st);
    } else {
      TrimNothing("");
    }
  }

  function InDouble(texts: seq<string>): (items: seq<Item>)
    ensures |items| == |texts| && forall i :: 0 <= i < |texts| ==> items[i] == Item(texts[i], Double)
  {
    seq(|texts|, i requires 0 <= i < |texts| => Item(texts[i], Double))
  }

  lemma {:induction false} UnescapedIsWell(s: string)
    requires Unescaped(s)
    ensures WellEscaped(s, '"')
  {
    if s != "" {
      assert s[0] in s;
      UnescapedIsWell(s[1..]);
    }
  }

  lemma {:induction false} TextsInDouble(texts: seq<string>)
    requires forall i :: 0 <= i < |texts| ==> texts[i] != ""
    ensures Texts(InDouble(texts)) == texts
    decreases |texts|
  {
    if texts != [] {
      var n := |texts| - 1;
      TextsInDouble(texts[..n]);
      assert InDouble(texts)[..n] == InDouble(texts[..n]);
    }
  }

  /** In particular any list of non-empty strings without double quote or backslash comes back. */
  lemma QuotedArrayRoundTrip(texts: seq<string>)
    requires forall i :: 0 <= i < |texts| ==> texts[i] != "" && Unescaped(texts[i])
    ensures ArrayOf(RenderArray(InDouble(texts))) == Some(texts)
  {
    forall i | 0 <= i < |texts|
      ensures Listable(InDouble(texts)[i])
    {
      UnescapedIsWell(texts[i]);
    }
    ArrayRoundTrip(InDouble(texts));
    TextsInDouble(texts);
  }

  // --------------------------------------------------------- decimal numbers

  function DigitChar(d: nat): char
    requires d < 10
  {
    '0' + d as char
  }

  function Decimal(n: nat): string {
    if n < 10 then [DigitChar(n)] else Decimal(n / 10) + [DigitChar(n % 10)]
  }

  lemma {:induction false} DecimalValue(n: nat)
    ensures Decimal(n) != "" && AllDigits(Decimal(n)) && Value(Decimal(n)) == n
  {
    if n < 10 {
      assert Decimal(n)[..0] == "";
    } else {
      DecimalValue(n / 10);
      var s := Decimal(n);
      assert s[..|s| - 1] == Decimal(n / 10);
    }
  }

  lemma ParseDecimal(n: nat)
    ensures ParseInt(Decimal(n)) == if FitsInt64(n) then Some(n) else None
  {
    DecimalValue(n);
    assert IsDigit(Decimal(n)[0]);
  }

  datatype Unit = NoUnit | K | KB | M | MB | G | GB

  function Suffix(u: Unit): string {
    match u
    case NoUnit => "" case K => "K" case KB => "KB" case M => "M" case MB => "MB" case G => "G" case GB => "GB"
  }

  function Multiplier(u: Unit): int {
    match u
    case NoUnit => 1
    case K => KIB case KB => KIB
    case M => MIB case MB => MIB
    case G => GIB case GB => GIB
  }

  lemma DigitsUntouched(s: string)
    requires s != "" && AllDigits(s)
    ensures TrimSpace(s) == s && ToUpper(s) == s
    ensures forall a, b :: !IsDigit(a) && !IsDigit(b) ==> TrimUnits(s, a, b) == s
  {
  }

  /** A size suffix as a user writes it, in any case. */
  predicate IsSuffix(suffix: string, u: Unit) {
    ToUpper(suffix) == Suffix(u)
  }

  lemma SuffixLast(suffix: string, u: Unit)
    requires IsSuffix(suffix, u) && u != NoUnit
    ensures suffix != "" && !IsSpace(suffix[|suffix| - 1])
  {
    var n := |suffix| - 1;
    assert ToUpper(suffix)[n] == UpperChar(suffix[n]);
    assert Suffix(u)[n] in {'K', 'M', 'G', 'B'};
  }

  lemma Suffixed(d: string, suffix: string, u: Unit)
    requires d != "" && AllDigits(d) && IsSuffix(suffix, u) && u != NoUnit
    ensures var t := d + suffix; TrimSpace(t) == t && ToUpper(t) == d + Suffix(u)
  {
    var t := d + suffix;
    SuffixLast(suffix, u);
    assert IsDigit(d[0]) && t[0] == d[0] && t[|t| - 1] == suffix[|suffix| - 1];
    TrimNothing(t);
    forall i | 0 <= i < |t|
      ensures ToUpper(t)[i] == (d + Suffix(u))[i]
    {
      if i < |d| {
        assert IsDigit(d[i]);
      } else {
        assert ToUpper(suffix)[i - |d|] == UpperChar(suffix[i - |d|]);
      }
    }
  }

  lemma UnitStripped(d: string, u: Unit)
    requires d != "" && AllDigits(d) && u != NoUnit
    ensures TrimUnits(d + Suffix(u), Suffix(u)[0], 'B') == d
  {
    var t, n, l := d + Suffix(u), |d|, Suffix(u)[0];
    DigitsUntouched(d);
    assert TrimUnits(d, l, 'B') == d;
    assert t[n] == l;
    if |Suffix(u)| == 2 {
      assert t[n + 1] == 'B';
      assert t[..n + 1][..n] == d;
      assert TrimUnits(t, l, 'B') == TrimUnits(t[..n + 1], l, 'B') == TrimUnits(d, l, 'B');
    } else {
      assert t[..n] == d;
      assert TrimUnits(t, l, 'B') == TrimUnits(d, l, 'B');
    }
  }

  /** The last letters of a size decide its unit. */
  lemma UnitEnds(d: string, u: Unit)
    requires d != "" && AllDigits(d) && u != NoUnit
    ensures forall l :: l == 'G' || l == 'M' || l == 'K' ==>
      (HasUnit(d + Suffix(u), l) <==> Suffix(u)[0] == l)
  {
    var t, n := d + Suffix(u), |d|;
    assert IsDigit(d[n - 1]) && t[n - 1] == d[n - 1] && t[n] == Suffix(u)[0];
    forall l: char | l == 'G' || l == 'M' || l == 'K'
      ensures HasUnit(t, l) <==> Suffix(u)[0] == l
    {
      assert HasSuffix(t, [l]) <==> t[|t| - 1] == l;
      assert HasSuffix(t, [l, 'B']) <==> t[|t| - 2] == l && t[|t| - 1] == 'B';
    }
  }

  lemma PlainEnds(d: string)
    requires d != "" && AllDigits(d)
    ensures !HasUnit(d, 'G') && !HasUnit(d, 'M') && !HasUnit(d, 'K')
  {
  }

  /** The unit letter and its multiplier. */
  predicate UnitOf(l: char, m: int) {
    (l == 'G' && m == GIB) || (l == 'M' && m == MIB) || (l == 'K' && m == KIB)
  }

  lemma MemoryWithUnit(t: string, upper: string, d: string, l: char, m: int)
    requires t != "" && TrimSpace(t) == t && ToUpper(t) == upper && UnitOf(l, m) && TrimUnits(upper, l, 'B') == d
    requires forall k :: k == 'G' || k == 'M' || k == 'K' ==> (HasUnit(upper, k) <==> k == l)
    ensures ParseMemoryLimit(t) == Scaled(d, m)
  {
  }

  lemma MemoryLimitOf(d: string, suffix: string, u: Unit)
    requires d != "" && AllDigits(d) && IsSuffix(suffix, u)
    ensures ParseMemoryLimit(d + suffix) == Scaled(d, Multiplier(u))
  {
    if u == NoUnit {
      assert d + suffix == d;
      DigitsUntouched(d);
      PlainEnds(d);
    } else {
      Suffixed(d, suffix, u);
      UnitStripped(d, u);
      UnitEnds(d, u);
      MemoryWithUnit(d + suffix, d + Suffix(u), d, Suffix(u)[0], Multiplier(u));
    }
  }

  lemma Scales(n: nat, m: int)
    requires m >= 1
    ensures n <= n * m
  {
  }

  /**
   A decimal size with a K, M or G suffix in any case means value times multiplier
   if and only if that fits in 64 bits; a larger one is refused or silently wraps.
   */
  lemma MemoryLimitExact(n: nat, suffix: string, u: Unit)
    requires IsSuffix(suffix, u)
    ensures ParseMemoryLimit(Decimal(n) + suffix) == Some(n * Multiplier(u)) <==> FitsInt64(n * Multiplier(u))
    ensures FitsInt64(n) ==> ParseMemoryLimit(Decimal(n) + suffix) == Some(Wrap64(n * Multiplier(u)))
    ensures !FitsInt64(n) ==> ParseMemoryLimit(Decimal(n) + suffix) == None
  {
    DecimalValue(n);
    Scales(n, Multiplier(u));
    ParseDecimal(n);
    DigitsUntouched(Decimal(n));
    MemoryLimitOf(Decimal(n), suffix, u);
  }

  /** A limit of 2^34 gigabytes is read as zero, which means no limit. */
  lemma MemoryLimitWraps(n: nat, suffix: string)
    requires n == 0x4_0000_0000 && suffix == "G"
    ensures ParseMemoryLimit(Decimal(n) + suffix) == Some(0)
  {
    assert ToUpper(suffix)[0] == 'G';
    MemoryLimitExact(n, suffix, G);
  }

  // ------------------------------------------- text with a backslash is no size

  lemma {:induction false} TrimKeepsBackslash(s: string)
    requires '\\' in s
    ensures '\\' in TrimLeft(s) && '\\' in TrimRight(s)
    decreases |s|
  {
    var n := |s| - 1;
    assert s == [s[0]] + s[1..] && s == s[..n] + [s[n]];
    if IsSpace(s[0]) {
      TrimKeepsBackslash(s[1..]);
    }
    if IsSpace(s[n]) {
      TrimKeepsBackslash(s[..n]);
    }
  }

  lemma {:induction false} UnitsKeepBackslash(s: string, a: char, b: char)
    requires '\\' in s && a != '\\' && b != '\\'
    ensures '\\' in TrimUnits(s, a, b)
    decreases |s|
  {
    var n := |s| - 1;
    assert s == s[..n] + [s[n]];
    if s[n] == a || s[n] == b {
      UnitsKeepBackslash(s[..n], a, b);
    }
  }

  lemma BackslashNoInt(s: string)
    requires '\\' in s
    ensures ParseInt(s) == None
  {
    var signed := s[0] == '-' || s[0] == '+';
    var body := if signed then s[1..] else s;
    assert s == [s[0]] + s[1..];
    assert '\\' in body;
  }

  lemma TrimmedNoInt(s: string)
    requires '\\' in s
    ensures '\\' in TrimSpace(s) && forall m :: Scaled(s, m) == None
  {
    TrimKeepsBackslash(s);
    TrimKeepsBackslash(TrimRight(s));
    BackslashNoInt(TrimSpace(s));
  }

  lemma UnitNoInt(t: string, l: char)
    requires '\\' in t && l != '\\'
    ensures forall m :: Scaled(TrimUnits(ToUpper(t), l, 'B'), m) == None
  {
    var i :| 0 <= i < |t| && t[i] == '\\';
    assert ToUpper(t)[i] == '\\';
    UnitsKeepBackslash(ToUpper(t), l, 'B');
    TrimmedNoInt(TrimUnits(ToUpper(t), l, 'B'));
  }

  lemma BackslashNoSize(s: string)
    requires '\\' in s
    ensures ParseMemoryLimit(s) == None
  {
    var t := TrimSpace(s);
    TrimmedNoInt(s);
    TrimmedNoInt(t);
    if HasUnit(ToUpper(t), 'G') {
      UnitNoInt(t, 'G');
    } else if HasUnit(ToUpper(t), 'M') {
      UnitNoInt(t, 'M');
    } else if HasUnit(ToUpper(t), 'K') {
      UnitNoInt(t, 'K');
    }
  }
}
