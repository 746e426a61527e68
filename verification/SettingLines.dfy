/**
 Single lines of a service file, as a person writes them: a key, a value in its
 own notation, and perhaps a comment (internal/svcd/config.go).
 */
module SettingLines {
  import opened Common
  import opened Strings
  import opened Config
  import opened ServiceFile

  // ------------------------------------------------- quotes along a line

  predicate EndsEscaped(line: string) {
    line != "" && line[|line| - 1] == '\\'
  }

  /** Every `#` of the line stands inside quotes. */
  ghost predicate HashesInside(line: string) {
    forall i :: 0 <= i < |line| && line[i] == '#' ==> QuotesAt(line, i).inside
  }

  /** The line ends outside quotes and holds no comment. */
  ghost predicate Shut(line: string) {
    !QuotesAt(line, |line|).inside && !EndsEscaped(line) && HashesInside(line)
  }

  /** The line ends inside double quotes and holds no comment. */
  ghost predicate Ajar(line: string) {
    QuotesAt(line, |line|) == Quotes(true, '"') && !EndsEscaped(line) && HashesInside(line)
  }

  lemma {:induction false} QuotesPrefix(a: string, b: string, n: nat)
    requires n <= |a|
    ensures QuotesAt(a + b, n) == QuotesAt(a, n)
    decreases n
  {
    if n > 0 {
      QuotesPrefix(a, b, n - 1);
    }
  }

  lemma QuotesSnoc(line: string, c: char)
    ensures var st := QuotesAt(line, |line|);
      QuotesAt(line + [c], |line| + 1) ==
        if !IsQuote(c) || EndsEscaped(line) then st
        else if !st.inside then Quotes(true, c)
        else if c == st.mark then st.(inside := false)
        else st
  {
    QuotesPrefix(line, [c], |line|);
  }

  lemma HashesSnoc(line: string, c: char)
    requires HashesInside(line) && (c == '#' ==> QuotesAt(line, |line|).inside)
    ensures HashesInside(line + [c])
  {
    var all := line + [c];
    forall i | 0 <= i < |all| && all[i] == '#'
      ensures QuotesAt(all, i).inside
    {
      QuotesPrefix(line, [c], i);
      assert i < |line| ==> line[i] == '#';
    }
  }

  /** Text that leaves the state of quotes alone and starts no comment. */
  predicate Neutral(s: string) {
    '"' !in s && '\'' !in s && '#' !in s && '\\' !in s
  }

  lemma {:induction false} ShutText(line: string, s: string)
    requires Shut(line) && Neutral(s)
    ensures Shut(line + s)
    decreases |s|
  {
    if s == "" {
      assert line + s == line;
    } else {
      assert s[0] in s;
      QuotesSnoc(line, s[0]);
      HashesSnoc(line, s[0]);
      ShutText(line + [s[0]], s[1..]);
      assert line + [s[0]] + s[1..] == line + s;
    }
  }

  lemma {:induction false} AjarText(line: string, s: string)
    requires Ajar(line) && Unescaped(s)
    ensures Ajar(line + s)
    decreases |s|
  {
    if s == "" {
      assert line + s == line;
    } else {
      assert s[0] in s;
      QuotesSnoc(line, s[0]);
      HashesSnoc(line, s[0]);
      AjarText(line + [s[0]], s[1..]);
      assert line + [s[0]] + s[1..] == line + s;
    }
  }

  lemma ShutQuoted(line: string, s: string)
    requires Shut(line) && Unescaped(s)
    ensures Shut(line + Quoted(s))
  {
    QuotesSnoc(line, '"');
    HashesSnoc(line, '"');
    var open := line + ['"'];
    AjarText(open, s);
    QuotesSnoc(open + s, '"');
    HashesSnoc(open + s, '"');
    assert open + s + ['"'] == line + Quoted(s);
  }

  lemma ShutNext(line: string, l: string, s: string)
    requires Shut(line + l) && Unescaped(s)
    ensures Shut(line + (l + ", " + Quoted(s)))
  {
    ShutText(line + l, ", ");
    ShutQuoted(line + l + ", ", s);
    assert line + l + ", " + Quoted(s) == line + (l + ", " + Quoted(s));
  }

  lemma ListedLast(texts: seq<string>)
    requires texts != []
    ensures var n := |texts| - 1;
      Listed(InDouble(texts)) ==
        if n == 0 then Quoted(texts[0]) else Listed(InDouble(texts[..n])) + ", " + Quoted(texts[n])
  {
    assert InDouble(texts)[..|texts| - 1] == InDouble(texts[..|texts| - 1]);
  }

  lemma {:induction false} ShutListed(line: string, texts: seq<string>)
    requires Shut(line) && forall i :: 0 <= i < |texts| ==> Unescaped(texts[i])
    ensures Shut(line + Listed(InDouble(texts)))
    decreases |texts|
  {
    if texts == [] {
      assert line + "" == line;
    } else {
      var n := |texts| - 1;
      ListedLast(texts);
      if n == 0 {
        ShutQuoted(line, texts[0]);
      } else {
        ShutListed(line, texts[..n]);
        ShutNext(line, Listed(InDouble(texts[..n])), texts[n]);
      }
    }
  }

  lemma ShutBracketed(line: string, l: string)
    requires Shut(line + "[" + l)
    ensures Shut(line + ("[" + l + "]"))
  {
    ShutText(line + "[" + l, "]");
    assert line + "[" + l + "]" == line + ("[" + l + "]");
  }

  lemma ShutArray(line: string, texts: seq<string>)
    requires Shut(line) && forall i :: 0 <= i < |texts| ==> Unescaped(texts[i])
    ensures Shut(line + RenderArray(InDouble(texts)))
  {
    ShutText(line, "[");
    ShutListed(line + "[", texts);
    ShutBracketed(line, Listed(InDouble(texts)));
  }

  // ------------------------------------------------------------- values

  /** A value and the notation it is written in; `Word` is unquoted text such as `true` or `50%`. */
  datatype Value = TextValue(text: string) | ListValue(items: seq<string>) | NumberValue(n: int) | Word(word: string)

  function Signed(n: int): string {
    if n < 0 then "-" + Decimal(-n) else Decimal(n)
  }

  function Written(v: Value): string {
    match v
    case TextValue(t) => Quoted(t)
    case ListValue(items) => RenderArray(InDouble(items))
    case NumberValue(n) => Signed(n)
    case Word(w) => w
  }

  /** Text that can stand between double quotes on one line. */
  predicate Simple(s: string) {
    Unescaped(s) && '\n' !in s
  }

  predicate PlainWord(w: string) {
    Tidy(w) && Neutral(w) && '\n' !in w
  }

  predicate Writable(v: Value) {
    match v
    case TextValue(t) => Simple(t)
    case ListValue(items) => forall i :: 0 <= i < |items| ==> items[i] != "" && Simple(items[i])
    case NumberValue(n) => FitsInt64(n)
    case Word(w) => PlainWord(w)
  }

  lemma {:induction false} DigitsPlain(s: string)
    requires AllDigits(s)
    ensures Neutral(s) && '\n' !in s
  {
    forall c | c in s
      ensures IsDigit(c)
    {
      var i :| 0 <= i < |s| && s[i] == c;
    }
  }

  /** A signed decimal is a plain word, and is read back. */
  lemma SignedReads(n: int)
    requires FitsInt64(n)
    ensures PlainWord(Signed(n)) && ParseInt(Signed(n)) == Some(n)
  {
    var d := Decimal(if n < 0 then -n else n);
    DecimalValue(if n < 0 then -n else n);
    DigitsPlain(d);
    assert IsDigit(d[0]) && IsDigit(d[|d| - 1]);
    if n < 0 {
      assert Signed(n)[1..] == d;
    }
  }

  lemma {:induction false} ListedOneLine(texts: seq<string>)
    requires forall i :: 0 <= i < |texts| ==> Simple(texts[i])
    ensures '\n' !in Listed(InDouble(texts))
    decreases |texts|
  {
    if texts != [] {
      var n := |texts| - 1;
      ListedOneLine(texts[..n]);
      assert InDouble(texts)[..n] == InDouble(texts[..n]);
    }
  }

  lemma WrittenOneLine(v: Value)
    requires Writable(v)
    ensures '\n' !in Written(v)
  {
    match v {
      case TextValue(t) =>
      case ListValue(items) =>
        ListedOneLine(items);
      case NumberValue(n) =>
        SignedReads(n);
      case Word(w) =>
    }
  }

  /** Text with no blank at its ends. */
  predicate Tidy(t: string) {
    t != "" && !IsSpace(t[0]) && !IsSpace(t[|t| - 1])
  }

  lemma WrittenEnds(v: Value)
    requires Writable(v)
    ensures Tidy(Written(v))
  {
    if v.NumberValue? {
      SignedReads(v.n);
    }
  }

  lemma ShutWritten(line: string, v: Value)
    requires Shut(line) && Writable(v)
    ensures Shut(line + Written(v))
  {
    match v {
      case TextValue(t) =>
        ShutQuoted(line, t);
      case ListValue(items) =>
        ShutArray(line, items);
      case NumberValue(n) =>
        SignedReads(n);
        ShutText(line, Signed(n));
      case Word(w) =>
        ShutText(line, w);
    }
  }

  // --------------------------------------------------------------- lines

  predicate WordChar(c: char) {
    ('a' <= c && c <= 'z') || ('A' <= c && c <= 'Z') || ('0' <= c && c <= '9') || c == '_' || c == '.' || c == '-'
  }

  predicate IsWord(key: string) {
    key != "" && forall i :: 0 <= i < |key| ==> WordChar(key[i])
  }

  function Bare(key: string, t: string): string {
    key + " = " + t
  }

  /** A value with the comment written after it, if any. */
  function Remarked(t: string, comment: Option<string>): string {
    match comment
    case None => t
    case Some(c) => t + " #" + c
  }

  /** A line as written; a comment follows a blank. */
  function LineOf(key: string, v: Value, comment: Option<string>): string {
    Bare(key, Remarked(Written(v), comment))
  }

  predicate CommentOk(comment: Option<string>) {
    comment.Some? ==> '\n' !in comment.value && (comment.value == "" || !IsSpace(comment.value[|comment.value| - 1]))
  }

  lemma WordNeutral(key: string)
    requires IsWord(key)
    ensures Neutral(key) && '\n' !in key && '=' !in key
  {
    forall c | c in key
      ensures WordChar(c)
    {
      var i :| 0 <= i < |key| && key[i] == c;
    }
  }

  lemma ShutBare(key: string, v: Value)
    requires IsWord(key) && Writable(v)
    ensures Shut(Bare(key, Written(v)))
  {
    WordNeutral(key);
    assert Shut("");
    ShutText("", key);
    assert "" + key == key;
    ShutText(key, " = ");
    ShutWritten(key + " = ", v);
  }

  lemma BareEnds(key: string, t: string, line: string)
    requires IsWord(key) && Tidy(t) && line == Bare(key, t)
    ensures Tidy(line) && WordChar(line[0]) && |line| > |key| + 2 && TrimSpace(line) == line
  {
    assert line[0] == key[0] && line[|line| - 1] == t[|t| - 1];
    assert WordChar(key[0]);
    TrimNothing(line);
  }

  lemma BareEquals(key: string, t: string, line: string)
    requires IsWord(key) && line == Bare(key, t)
    ensures Index(line, '=') == |key| + 1
  {
    WordNeutral(key);
    var before := key + " ";
    assert line == before + ['='] + (" " + t);
    IndexAfter(before, '=', " " + t);
  }

  /** Around its first equals sign stand the key and the rest. */
  lemma BareHalves(key: string, t: string, line: string)
    requires IsWord(key) && Tidy(t) && line == Bare(key, t)
    ensures |line| > |key| + 2 && TrimSpace(line[..|key| + 1]) == key && TrimSpace(line[|key| + 2..]) == t
  {
    assert line[..|key| + 1] == key + " " && line[|key| + 2..] == " " + t;
    assert WordChar(key[0]) && WordChar(key[|key| - 1]);
    TrimOneBlank(key);
    TrimOneBlank(t);
  }

  /** A line without a comment is stripped of nothing. */
  lemma ShutNotStripped(line: string)
    requires HashesInside(line)
    ensures Stripped(line) == line
  {
  }

  lemma FirstHash(line: string, rest: string)
    requires '#' !in line
    ensures Index(line + ['#'] + rest, '#') == |line|
  {
    IndexAfter(line, '#', rest);
  }

  /** A comment after a value without `#` is stripped. */
  lemma CommentStripped(line: string, c: string)
    requires Shut(line) && '#' !in line && Tidy(line)
    ensures Stripped(line + " #" + c) == line
  {
    var spaced := line + " ";
    var all := spaced + ['#'] + c;
    assert all == line + " #" + c;
    FirstHash(spaced, c);
    QuotesSnoc(line, ' ');
    QuotesPrefix(spaced, ['#'] + c, |spaced|);
    assert spaced + (['#'] + c) == all;
    assert all[..|spaced|] == spaced;
    TrimOneBlank(line);
  }

  lemma IndexFirst(s: string, c: char, i: nat)
    requires i < |s| && s[i] == c
    ensures 0 <= Index(s, c) <= i
  {
    var k := Index(s, c);
    assert forall j :: 0 <= j < k ==> s[..k][j] == s[j];
  }

  /** A comment after a value with `#` is not: only the first `#` of a line is looked at. */
  lemma CommentKept(line: string, rest: string)
    requires Shut(line) && '#' in line
    ensures Stripped(line + rest) == line + rest
  {
    var all := line + rest;
    var i :| 0 <= i < |line| && line[i] == '#';
    IndexFirst(all, '#', i);
    var idx := Index(all, '#');
    assert line[idx] == '#';
    QuotesPrefix(line, rest, idx);
  }

  /** Reading a line once it is known what its comment leaves of it. */
  lemma ReadBare(text: string, body: string, key: string, t: string)
    requires Size(text) <= MAX_LINE && TrimSpace(text) == text && text != "" && WordChar(text[0])
    requires IsWord(key) && Tidy(t) && body == Bare(key, t) && Stripped(text) == body
    ensures ReadLine(text) == Assign(KeyOf(ToLower(key)), key, t)
  {
    BareEnds(key, t, body);
    BareEquals(key, t, body);
    BareHalves(key, t, body);
    OpensWithWord(text);
    OpensWithWord(body);
  }

  lemma OpensWithWord(line: string)
    requires line != "" && WordChar(line[0])
    ensures !HasPrefix(line, "#") && !HasPrefix(line, "[")
  {
    assert "#"[0] == '#' && "["[0] == '[';
  }

  lemma RemarkedTidy(t: string, comment: Option<string>)
    requires Tidy(t) && CommentOk(comment)
    ensures Tidy(Remarked(t, comment))
  {
  }

  lemma LineOneLine(key: string, v: Value, comment: Option<string>)
    requires IsWord(key) && Writable(v) && CommentOk(comment)
    ensures '\n' !in LineOf(key, v, comment)
  {
    WordNeutral(key);
    WrittenOneLine(v);
  }

  /**
   A line is read as its key and its value. A comment is taken off exactly when the
   value before it holds no `#`: otherwise the value is read with the comment on it.
   */
  lemma LineReads(key: string, v: Value, comment: Option<string>)
    requires IsWord(key) && Writable(v) && CommentOk(comment) && Size(LineOf(key, v, comment)) <= MAX_LINE
    ensures ReadLine(LineOf(key, v, comment)) ==
      Assign(KeyOf(ToLower(key)), key, if '#' in Written(v) then Remarked(Written(v), comment) else Written(v))
  {
    WrittenEnds(v);
    ShutBare(key, v);
    LineReadsAs(key, Written(v), comment);
  }

  lemma LineReadsAs(key: string, t: string, comment: Option<string>)
    requires IsWord(key) && Tidy(t) && Shut(Bare(key, t)) && CommentOk(comment)
    requires Size(Bare(key, Remarked(t, comment))) <= MAX_LINE
    ensures ReadLine(Bare(key, Remarked(t, comment))) ==
      Assign(KeyOf(ToLower(key)), key, if '#' in t then Remarked(t, comment) else t)
  {
    var line, whole := Bare(key, t), Remarked(t, comment);
    var text := Bare(key, whole);
    RemarkedTidy(t, comment);
    BareEnds(key, t, line);
    BareEnds(key, whole, text);
    HashIn(key, t);
    if comment.None? {
      ShutNotStripped(line);
      ReadBare(text, line, key, t);
    } else if '#' in t {
      assert text == line + (" #" + comment.value);
      CommentKept(line, " #" + comment.value);
      ReadBare(text, text, key, whole);
    } else {
      assert text == line + " #" + comment.value;
      CommentStripped(line, comment.value);
      ReadBare(text, line, key, t);
    }
  }

  lemma HashIn(key: string, t: string)
    requires IsWord(key)
    ensures '#' in Bare(key, t) <==> '#' in t
  {
    WordNeutral(key);
  }
}
