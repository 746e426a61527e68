/**
 Whole service files: ParseServiceSpecFromBytes (internal/svcd/config.go) and
 the definition `karim run` prints for it (cmd/karim/main.go).
 */
module ServiceFile {
  import opened Common
  import opened Strings
  import opened Config

  datatype ServiceSpec = ServiceSpec(
    name: string, exec: string, args: seq<string>, env: seq<string>, directory: string, rootDir: string,
    after: seq<string>, memoryLimit: int, cpuQuota: real, restart: string, maxRestarts: int, seccompProfile: string,
    capabilitiesAdd: seq<string>, capabilitiesDrop: seq<string>, noNewPrivs: bool)

  const DEFAULTS := ServiceSpec("", "", [], [], "", "", [], 0, 0.0, "on-failure", 0, "app-default", [], [], true)

  // ------------------------------------------------------------------ one line

  /** strings.Index for a single character. */
  function Index(s: string, c: char): (i: int)
    ensures -1 <= i < |s|
    ensures i == -1 ==> c !in s
    ensures i >= 0 ==> s[i] == c && c !in s[..i]
  {
    if s == "" then -1
    else if s[0] == c then 0
    else
      var i := Index(s[1..], c);
      if i < 0 then -1 else assert s[..i + 1] == [s[0]] + s[1..][..i]; i + 1
  }

  datatype Quotes = Quotes(inside: bool, mark: char)

  /** One turn of the loop that looks for an open quote before a `#`. */
  function QuoteStep(st: Quotes, line: string, i: nat): Quotes
    requires i < |line|
  {
    if IsQuote(line[i]) && (i == 0 || line[i - 1] != '\\') then
      if !st.inside then Quotes(true, line[i])
      else if line[i] == st.mark then st.(inside := false)
      else st
    else st
  }

  function QuotesAt(line: string, n: nat): Quotes
    requires n <= |line|
  {
    if n == 0 then Quotes(false, '\0') else QuoteStep(QuotesAt(line, n - 1), line, n - 1)
  }

  method InQuotesBefore(line: string, idx: nat) returns (inQuotes: bool)
    requires idx <= |line|
    ensures inQuotes == QuotesAt(line, idx).inside
  {
    var st := Quotes(false, '\0');
    for i := 0 to idx
      invariant st == QuotesAt(line, i)
    {
      st := QuoteStep(st, line, i);
    }
    return st.inside;
  }

  /** The line without a comment that starts at its first `#` outside quotes. */
  function Stripped(line: string): string {
    var idx := Index(line, '#');
    if idx >= 0 && !QuotesAt(line, idx).inside then TrimSpace(line[..idx]) else line
  }

  /** The settings a service file can hold. */
  datatype Key =
    | NameKey | ExecKey | ArgsKey | EnvKey | DirectoryKey | RootDirKey | AfterKey | MemoryKey | QuotaKey
    | RestartKey | MaxRestartsKey | SeccompKey | CapsAddKey | CapsDropKey | NoNewPrivsKey | UnknownKey

  function KeyOf(k: string): Key {
    if k == "name" then NameKey
    else if k == "exec" then ExecKey
    else if k == "args" then ArgsKey
    else if k == "env" || k == "environment" then EnvKey
    else if k == "directory" then DirectoryKey
    else if k == "root_dir" || k == "rootdir" || k == "chroot" then RootDirKey
    else if k == "after" then AfterKey
    else if k == "memory_limit" then MemoryKey
    else if k == "cpu_quota" then QuotaKey
    else if k == "restart" then RestartKey
    else if k == "max_restarts" then MaxRestartsKey
    else if k == "seccomp_profile" then SeccompKey
    else if k == "capabilities_add" || k == "capabilities.add" then CapsAddKey
    else if k == "capabilities_drop" || k == "capabilities.drop" then CapsDropKey
    else if k == "no_new_privs" then NoNewPrivsKey
    else UnknownKey
  }

  /** The longest line, in bytes, that bufio.Scanner accepts with its default buffer. */
  const MAX_LINE: nat := 65535

  /** The length of a text in UTF-8. */
  function Size(s: string): nat {
    if s == "" then 0
    else
      var c := s[|s| - 1];
      Size(s[..|s| - 1])
      + (if c < '\U{80}' then 1 else if c < '\U{800}' then 2 else if c < '\U{10000}' then 3 else 4)
  }

  lemma {:induction false} SizeAtMost(s: string)
    ensures Size(s) <= 4 * |s|
  {
    if s != "" {
      SizeAtMost(s[..|s| - 1]);
    }
  }

  datatype Line = Blank | TooLong | Section(name: string) | Assign(key: Key, text: string, val: string)

  function ReadLine(text: string): Line {
    var line := TrimSpace(text);
    if Size(text) > MAX_LINE then TooLong
    else if line == "" || HasPrefix(line, "#") then Blank
    else
      var body := Stripped(line);
      if body == "" then Blank
      else if HasPrefix(body, "[") && HasSuffix(body, "]") && |body| >= 2 then
        Section(ToLower(TrimSpace(body[1..|body| - 1])))
      else
        var eq := Index(body, '=');
        if eq < 0 then Blank
        else
          var key := TrimSpace(body[..eq]);
          Assign(KeyOf(ToLower(key)), key, TrimSpace(body[eq + 1..]))
  }

  // ------------------------------------------------------------- one assignment

  datatype Progress = Progress(spec: ServiceSpec, section: string)

  datatype Step = Next(progress: Progress) | Invalid | Panic

  function SetText(spec: ServiceSpec, key: Key, t: string): ServiceSpec {
    match key
    case NameKey => spec.(name := t)
    case ExecKey => spec.(exec := t)
    case DirectoryKey => spec.(directory := t)
    case RootDirKey => spec.(rootDir := t)
    case RestartKey => spec.(restart := t)
    case SeccompKey => spec.(seccompProfile := t)
    case _ => spec
  }

  function SetList(spec: ServiceSpec, key: Key, l: seq<string>): ServiceSpec {
    match key
    case ArgsKey => spec.(args := l)
    case EnvKey => spec.(env := spec.env + l)
    case AfterKey => spec.(after := l)
    case CapsAddKey => spec.(capabilitiesAdd := l)
    case CapsDropKey => spec.(capabilitiesDrop := l)
    case _ => spec
  }

  /** The key switch. `quota` stands for the floating-point reader of cpu_quota. */
  function Store(quota: string -> Option<real>, p: Progress, key: Key, val: string): Step {
    match key
    case UnknownKey => Next(p)
    case MemoryKey => StoreMemory(p, val)
    case QuotaKey => StoreQuota(quota, p, val)
    case MaxRestartsKey => StoreMaxRestarts(p, val)
    case NoNewPrivsKey =>
      (match ParseBool(val) case None => Panic case Some(b) => Next(p.(spec := p.spec.(noNewPrivs := b))))
    case ArgsKey => StoreList(p, key, val)
    case EnvKey => StoreList(p, key, val)
    case AfterKey => StoreList(p, key, val)
    case CapsAddKey => StoreList(p, key, val)
    case CapsDropKey => StoreList(p, key, val)
    case _ =>
      match Unquote(val)
      case None => Panic
      case Some(t) => Next(p.(spec := SetText(p.spec, key, t)))
  }

  function StoreList(p: Progress, key: Key, val: string): Step {
    match ArrayOf(val)
    case None => Panic
    case Some(l) => Next(p.(spec := SetList(p.spec, key, l)))
  }

  function StoreMemory(p: Progress, val: string): Step {
    match Unquote(val)
    case None => Panic
    case Some(t) => SetMemory(p, ParseMemoryLimit(t))
  }

  function SetMemory(p: Progress, limit: Option<int>): Step {
    match limit
    case None => Invalid
    case Some(m) => Next(p.(spec := p.spec.(memoryLimit := m)))
  }

  function StoreQuota(quota: string -> Option<real>, p: Progress, val: string): Step {
    match Unquote(val)
    case None => Panic
    case Some(t) =>
      match quota(t)
      case None => Invalid
      case Some(q) => Next(p.(spec := p.spec.(cpuQuota := q)))
  }

  /** An unreadable max_restarts is ignored. */
  function StoreMaxRestarts(p: Progress, val: string): Step {
    match Unquote(val)
    case None => Panic
    case Some(t) =>
      match ParseInt(TrimSpace(t))
      case None => Next(p)
      case Some(n) => Next(p.(spec := p.spec.(maxRestarts := n)))
  }

  function StoreEnv(p: Progress, key: string, val: string): Step {
    match Unquote(val)
    case None => Panic
    case Some(t) => Next(p.(spec := p.spec.(env := p.spec.env + [key + "=" + t])))
  }

  /** The settings whose value is not a list. */
  predicate TakesOneValue(key: Key) {
    key in {NameKey, ExecKey, DirectoryKey, RootDirKey, RestartKey, SeccompKey,
            MemoryKey, QuotaKey, MaxRestartsKey, NoNewPrivsKey}
  }

  /** A lone quote as the value of such a setting panics. */
  lemma LoneQuotePanics(quota: string -> Option<real>, p: Progress, key: Key, val: string)
    requires TakesOneValue(key) && (TrimSpace(val) == "\"" || TrimSpace(val) == "'")
    ensures Store(quota, p, key, val) == Panic
  {
    TrimTwice(val);
    UnquotePanicsExactly(val);
    UnquotePanicsExactly(TrimSpace(val));
  }

  /**
   Values a setting cannot use: an unreadable quota rejects the file, an unreadable
   max_restarts and an unknown key change nothing.
   */
  lemma OddValues(quota: string -> Option<real>, p: Progress, val: string, t: string)
    requires Unquote(val) == Some(t)
    ensures Store(quota, p, UnknownKey, val) == Next(p)
    ensures quota(t) == None ==> Store(quota, p, QuotaKey, val) == Invalid
    ensures ParseInt(TrimSpace(t)) == None ==> Store(quota, p, MaxRestartsKey, val) == Next(p)
  {
  }

  lemma BadSizeRejects(quota: string -> Option<real>, p: Progress, val: string, t: string, limit: Option<int>)
    requires Unquote(val) == Some(t) && limit == ParseMemoryLimit(t)
    ensures limit == None ==> Store(quota, p, MemoryKey, val) == Invalid
  {
    MemoryStep(p, val, t, limit);
  }

  function Take(quota: string -> Option<real>, p: Progress, line: Line): Step {
    match line
    case Blank => Next(p)
    case TooLong => Invalid
    case Section(name) => Next(p.(section := name))
    case Assign(key, text, val) =>
      if p.section == "env" || p.section == "environment" then StoreEnv(p, text, val) else Store(quota, p, key, val)
  }

  // ------------------------------------------------------------------ whole text

  /** bufio.ScanLines; a carriage return before a newline is trimmed later with other blanks. */
  function Lines(data: string): seq<string>
    decreases |data|
  {
    if data == "" then []
    else
      var i := Index(data, '\n');
      if i < 0 then [data] else [data[..i]] + Lines(data[i + 1..])
  }

  datatype Outcome = Parsed(spec: ServiceSpec) | Rejected | Panicked

  function Check(spec: ServiceSpec): Outcome {
    if spec.exec == "" || spec.name == "" then Rejected else Parsed(spec)
  }

  function Run(quota: string -> Option<real>, p: Progress, lines: seq<Line>): Outcome
    decreases |lines|
  {
    if lines == [] then Check(p.spec)
    else
      match Take(quota, p, lines[0])
      case Panic => Panicked
      case Invalid => Rejected
      case Next(p') => Run(quota, p', lines[1..])
  }

  function ReadAll(texts: seq<string>): (ls: seq<Line>)
    ensures |ls| == |texts| && forall i :: 0 <= i < |texts| ==> ls[i] == ReadLine(texts[i])
  {
    seq(|texts|, i requires 0 <= i < |texts| => ReadLine(texts[i]))
  }

  function Parse(quota: string -> Option<real>, data: string): Outcome {
    Run(quota, Progress(DEFAULTS, ""), ReadAll(Lines(data)))
  }

  /** ParseServiceSpecFromBytes. */
  method ParseServiceSpecFromBytes(quota: string -> Option<real>, data: string) returns (r: Outcome)
    ensures r == Parse(quota, data)
  {
    var texts := Lines(data);
    ghost var lines := ReadAll(texts);
    var p := Progress(DEFAULTS, "");
    var i := 0;
    while i < |texts|
      invariant 0 <= i <= |texts|
      invariant Parse(quota, data) == Run(quota, p, lines[i..])
    {
      ghost var todo := lines[i..];
      assert todo[0] == lines[i] && todo[1..] == lines[i + 1..];
      match Take(quota, p, ReadLine(texts[i])) {
        case Panic => return Panicked;
        case Invalid => return Rejected;
        case Next(next) => p := next;
      }
      i := i + 1;
    }
    return Check(p.spec);
  }

  // ------------------------------------------------------------ what karim run prints

  /** strconv.IsPrint beyond ASCII, which is given. */
  type Printer = char -> bool

  /** A character that Go's %q prints as itself. */
  predicate Plain(isPrint: Printer, c: char) {
    if c < '\U{80}' then ' ' <= c && c <= '~' && c != '"' && c != '\\' else isPrint(c)
  }

  predicate AllPlain(isPrint: Printer, s: string) {
    forall i :: 0 <= i < |s| ==> Plain(isPrint, s[i])
  }

  function HexDigit(d: nat): char
    requires d < 16
  {
    if d < 10 then '0' + d as char else 'a' + (d - 10) as char
  }

  function Hex(n: nat, k: nat): (r: string)
    ensures |r| == k && '"' !in r && '\n' !in r
  {
    if k == 0 then "" else Hex(n / 16, k - 1) + [HexDigit(n % 16)]
  }

  /** How %q prints one character. */
  function Escape(isPrint: Printer, c: char): string {
    if Plain(isPrint, c) then [c]
    else if c == '"' || c == '\\' then ['\\', c]
    else if c == '\U{7}' then "\\a"
    else if c == '\U{8}' then "\\b"
    else if c == '\U{C}' then "\\f"
    else if c == '\n' then "\\n"
    else if c == '\r' then "\\r"
    else if c == '\t' then "\\t"
    else if c == '\U{B}' then "\\v"
    else if c < '\U{80}' then "\\x" + Hex(c as int, 2)
    else if c < '\U{10000}' then "\\u" + Hex(c as int, 4)
    else "\\U" + Hex(c as int, 8)
  }

  /** What %q prints between its quotes. */
  function Escaped(isPrint: Printer, s: string): string {
    if s == "" then "" else Escape(isPrint, s[0]) + Escaped(isPrint, s[1..])
  }

  /** `key = %q`, of a value that is already escaped. */
  function Setting(key: string, val: string): string {
    key + " = " + Quoted(val)
  }

  function Text(lines: seq<string>): string {
    if lines == [] then "" else lines[0] + "\n" + Text(lines[1..])
  }

  const BANNER := "# Generated by karim run"

  /** The flags of `karim run` that end up in the definition. */
  datatype Flags = Flags(name: string, exec: string, restart: string, seccomp: string, memory: string)

  const RUN_KEYS := ["name", "exec", "restart", "seccomp_profile", "memory_limit"]

  function Values(f: Flags): (vs: seq<string>)
    ensures |vs| == 5
  {
    [f.name, f.exec, f.restart, f.seccomp, f.memory]
  }

  function Settings(keys: seq<string>, vals: seq<string>): (ls: seq<string>)
    requires |keys| == |vals|
    ensures |ls| == |keys| && forall i :: 0 <= i < |keys| ==> ls[i] == Setting(keys[i], vals[i])
  {
    seq(|keys|, i requires 0 <= i < |keys| => Setting(keys[i], vals[i]))
  }

  /** The flags as %q prints them. */
  function EscapeAll(isPrint: Printer, f: Flags): Flags {
    Flags(Escaped(isPrint, f.name), Escaped(isPrint, f.exec), Escaped(isPrint, f.restart),
          Escaped(isPrint, f.seccomp), Escaped(isPrint, f.memory))
  }

  /** How many settings are printed: the memory line only when a limit was given. */
  function Printed(f: Flags): nat {
    if f.memory != "" then 5 else 4
  }

  /** The lines for values that are already escaped. */
  function RunLines(f: Flags): seq<string> {
    [BANNER] + Settings(RUN_KEYS[..Printed(f)], Values(f)[..Printed(f)])
  }

  /** The text written to the builder when `k` lines are done. */
  ghost function TextBefore(f: Flags, k: nat): string
    requires k <= 1 + Printed(f)
  {
    Text(RunLines(f)[..k])
  }

  lemma EscapedValue(isPrint: Printer, f: Flags, k: nat)
    requires k < 5
    ensures Values(EscapeAll(isPrint, f))[k] == Escaped(isPrint, Values(f)[k])
  {
  }

  /** One Fprintf of a setting to the builder. */
  method WriteSetting(isPrint: Printer, toml: string, key: string, val: string, ghost f: Flags, ghost k: nat)
    returns (r: string)
    requires 1 <= k <= Printed(EscapeAll(isPrint, f)) && key == RUN_KEYS[k - 1] && val == Values(f)[k - 1]
    requires toml == TextBefore(EscapeAll(isPrint, f), k)
    ensures r == TextBefore(EscapeAll(isPrint, f), k + 1)
  {
    r := toml + Setting(key, Escaped(isPrint, val)) + "\n";
    EscapedValue(isPrint, f, k - 1);
    TextPrefix(RunLines(EscapeAll(isPrint, f)), k);
  }

  lemma EscapedPrinted(isPrint: Printer, f: Flags)
    ensures Printed(EscapeAll(isPrint, f)) == Printed(f)
  {
    EscapedGrows(isPrint, f.memory);
    EscapedValue(isPrint, f, 4);
  }

  lemma TextEnds(f: Flags)
    ensures TextBefore(f, 1) == BANNER + "\n" && TextBefore(f, 1 + Printed(f)) == Text(RunLines(f))
  {
    TextPrefix(RunLines(f), 0);
    assert RunLines(f)[..1 + Printed(f)] == RunLines(f);
  }

  /** The part of the builder that is always written. */
  method RenderTexts(isPrint: Printer, f: Flags) returns (toml: string)
    ensures toml == TextBefore(EscapeAll(isPrint, f), 5)
  {
    toml := BANNER + "\n";
    TextEnds(EscapeAll(isPrint, f));
    toml := WriteSetting(isPrint, toml, "name", f.name, f, 1);
    toml := WriteSetting(isPrint, toml, "exec", f.exec, f, 2);
    toml := WriteSetting(isPrint, toml, "restart", f.restart, f, 3);
    toml := WriteSetting(isPrint, toml, "seccomp_profile", f.seccomp, f, 4);
  }

  /** The builder of runRun. */
  method RenderRun(isPrint: Printer, f: Flags) returns (toml: string)
    ensures toml == Text(RunLines(EscapeAll(isPrint, f)))
  {
    toml := RenderTexts(isPrint, f);
    EscapedPrinted(isPrint, f);
    TextEnds(EscapeAll(isPrint, f));
    if f.memory != "" {
      toml := WriteSetting(isPrint, toml, "memory_limit", f.memory, f, 5);
    }
  }

  /** Escaping changes exactly the text that is not plain. */
  lemma {:induction false} EscapedGrows(isPrint: Printer, s: string)
    ensures |Escaped(isPrint, s)| >= |s|
    ensures AllPlain(isPrint, s) ==> Escaped(isPrint, s) == s
    ensures !AllPlain(isPrint, s) ==> |Escaped(isPrint, s)| > |s| && '\\' in Escaped(isPrint, s)
    decreases |s|
  {
    if s != "" {
      EscapedGrows(isPrint, s[1..]);
      assert s == [s[0]] + s[1..];
      var head := Escape(isPrint, s[0]);
      assert if Plain(isPrint, s[0]) then head == [s[0]] else |head| >= 2 && head[0] == '\\';
    }
  }

  lemma {:induction false} TextSnoc(lines: seq<string>, last: string)
    ensures Text(lines + [last]) == Text(lines) + last + "\n"
    decreases |lines|
  {
    var all := lines + [last];
    if lines == [] {
      assert all == [last] && all[1..] == [];
      assert Text([]) == "";
    } else {
      assert all[0] == lines[0] && all[1..] == lines[1..] + [last];
      TextSnoc(lines[1..], last);
    }
  }

  lemma TextPrefix(ls: seq<string>, k: nat)
    requires k < |ls|
    ensures Text(ls[..k + 1]) == Text(ls[..k]) + ls[k] + "\n"
    ensures ls[..0] == [] && Text(ls[..0]) == ""
  {
    assert ls[..k + 1] == ls[..k] + [ls[k]];
    TextSnoc(ls[..k], ls[k]);
  }

  // ---------------------------------------------------------------- the round trip

  predicate KeyChar(c: char) {
    ('a' <= c && c <= 'z') || c == '_'
  }

  predicate IsKey(key: string) {
    key != "" && forall i :: 0 <= i < |key| ==> KeyChar(key[i])
  }

  /** Text that stays within its double quotes: no newline, and a backslash before every quote. */
  predicate Enclosable(v: string) {
    '\n' !in v && forall i :: 0 <= i < |v| && v[i] == '"' ==> i > 0 && v[i - 1] == '\\'
  }

  lemma EnclosableConcat(a: string, b: string)
    requires Enclosable(a) && Enclosable(b)
    ensures Enclosable(a + b)
  {
  }

  lemma EscapeEnclosable(isPrint: Printer, c: char)
    ensures Enclosable(Escape(isPrint, c))
  {
  }

  lemma {:induction false} EscapedEnclosable(isPrint: Printer, s: string)
    ensures Enclosable(Escaped(isPrint, s))
    decreases |s|
  {
    if s != "" {
      EscapedEnclosable(isPrint, s[1..]);
      EscapeEnclosable(isPrint, s[0]);
      EnclosableConcat(Escape(isPrint, s[0]), Escaped(isPrint, s[1..]));
    }
  }

  /** In a printed setting, every position after the opening quote is inside double quotes. */
  lemma {:induction false} QuotesInSetting(key: string, v: string, n: nat)
    requires IsKey(key) && Enclosable(v) && n <= |key| + 4 + |v|
    ensures |Setting(key, v)| == |key| + 5 + |v|
    ensures QuotesAt(Setting(key, v), n).inside <==> n > |key| + 3
    ensures n > |key| + 3 ==> QuotesAt(Setting(key, v), n).mark == '"'
    decreases n
  {
    var line := Setting(key, v);
    if n > 0 {
      QuotesInSetting(key, v, n - 1);
      SettingChar(key, v, n - 1);
      if n > 1 {
        SettingChar(key, v, n - 2);
      }
    }
  }

  /** The characters of a printed setting, position by position. */
  lemma SettingChar(key: string, v: string, i: nat)
    requires i < |key| + 5 + |v|
    ensures var line := Setting(key, v);
      && |line| == |key| + 5 + |v|
      && line[i] == (
        if i < |key| then key[i]
        else if i == |key| || i == |key| + 2 then ' '
        else if i == |key| + 1 then '='
        else if i == |key| + 3 || i == |key| + 4 + |v| then '"'
        else v[i - |key| - 4])
  {
  }

  /** A `#` in a printed setting is never taken for a comment. */
  lemma SettingNotStripped(key: string, v: string)
    requires IsKey(key) && Enclosable(v)
    ensures Stripped(Setting(key, v)) == Setting(key, v)
  {
    var line := Setting(key, v);
    var idx := Index(line, '#');
    if idx >= 0 {
      SettingChar(key, v, idx);
      QuotesInSetting(key, v, idx);
    }
  }

  lemma FirstEquals(key: string, v: string)
    requires IsKey(key)
    ensures Index(Setting(key, v), '=') == |key| + 1
  {
    var before := key + " ";
    forall i | 0 <= i < |before|
      ensures before[i] != '='
    {
      assert i < |key| ==> KeyChar(key[i]);
    }
    assert Setting(key, v) == before + ['='] + (" " + Quoted(v));
    IndexAfter(before, '=', " " + Quoted(v));
  }

  /** A printed setting has no blank ends and opens with its key. */
  lemma SettingEnds(key: string, v: string)
    requires IsKey(key)
    ensures var line := Setting(key, v); TrimSpace(line) == line && line != "" && KeyChar(line[0])
  {
    SettingChar(key, v, 0);
    SettingChar(key, v, |key| + 4 + |v|);
    assert KeyChar(key[0]);
    TrimNothing(Setting(key, v));
  }

  /** Around its first equals sign stand the key and the quoted value. */
  lemma SettingHalves(key: string, v: string)
    requires IsKey(key)
    ensures var line := Setting(key, v);
      && |line| > |key| + 1
      && TrimSpace(line[..|key| + 1]) == key && TrimSpace(line[|key| + 2..]) == Quoted(v)
  {
    var line := Setting(key, v);
    assert line[..|key| + 1] == key + " ";
    assert line[|key| + 2..] == " " + Quoted(v);
    assert KeyChar(key[0]) && KeyChar(key[|key| - 1]);
    TrimOneBlank(key);
    UnquoteQuoted(v);
  }

  lemma SettingReads(key: string, v: string)
    requires IsKey(key) && Enclosable(v) && Size(Setting(key, v)) <= MAX_LINE
    ensures ReadLine(Setting(key, v)) == Assign(KeyOf(key), key, Quoted(v))
  {
    SettingEnds(key, v);
    SettingNotStripped(key, v);
    FirstEquals(key, v);
    SettingHalves(key, v);
    KeyIsLower(key);
    OpensWithKey(Setting(key, v));
  }

  lemma OpensWithKey(line: string)
    requires line != "" && KeyChar(line[0])
    ensures !HasPrefix(line, "#") && !HasPrefix(line, "[")
  {
    assert "#"[0] == '#' && "["[0] == '[';
  }

  lemma KeyIsLower(key: string)
    requires IsKey(key)
    ensures ToLower(key) == key
  {
  }

  lemma LinesCons(a: string, b: string)
    requires '\n' !in a
    ensures Lines(a + "\n" + b) == [a] + Lines(b)
  {
    var t := a + ['\n'] + b;
    assert t == a + "\n" + b;
    IndexAfter(a, '\n', b);
    assert t[..|a|] == a && t[|a| + 1..] == b;
  }

  lemma {:induction false} LinesOfText(ls: seq<string>)
    requires forall i :: 0 <= i < |ls| ==> '\n' !in ls[i]
    ensures Lines(Text(ls)) == ls
    decreases |ls|
  {
    if ls != [] {
      LinesCons(ls[0], Text(ls[1..]));
      LinesOfText(ls[1..]);
      assert ls == [ls[0]] + ls[1..];
    }
  }

  lemma {:induction false} IndexAfter(a: string, c: char, b: string)
    requires c !in a
    ensures Index(a + [c] + b, c) == |a|
    decreases |a|
  {
    var s := a + [c] + b;
    if a != "" {
      assert a[0] in a && s[0] == a[0];
      assert s[1..] == a[1..] + [c] + b;
      IndexAfter(a[1..], c, b);
    }
  }

  lemma SettingOneLine(key: string, v: string)
    requires IsKey(key) && Enclosable(v)
    ensures '\n' !in Setting(key, v)
  {
  }

  /** What the printed text means: the given fields, and the memory limit if its text is readable. */
  function Expected(f: Flags): Outcome {
    WithMemory(TextFields(f), f.memory, ParseMemoryLimit(f.memory))
  }

  function WithMemory(spec: ServiceSpec, memory: string, limit: Option<int>): Outcome {
    if memory == "" then Check(spec)
    else
      match limit
      case None => Rejected
      case Some(m) => Check(spec.(memoryLimit := m))
  }

  /** Values that stay within their quotes. */
  ghost predicate Printable(f: Flags) {
    forall i :: 0 <= i < 5 ==> Enclosable(Values(f)[i])
  }

  /** No line is longer than the scanner takes. */
  ghost predicate WithinLimit(f: Flags) {
    forall i :: 0 <= i < |RunLines(f)| ==> Size(RunLines(f)[i]) <= MAX_LINE
  }

  lemma PrintedKeys()
    ensures forall i :: 0 <= i < 5 ==> IsKey(RUN_KEYS[i])
    ensures KeyOf(RUN_KEYS[0]) == NameKey && KeyOf(RUN_KEYS[1]) == ExecKey && KeyOf(RUN_KEYS[2]) == RestartKey
    ensures KeyOf(RUN_KEYS[3]) == SeccompKey && KeyOf(RUN_KEYS[4]) == MemoryKey
  {
  }

  /** Steps that all go on lead the run to the state after them. */
  lemma {:induction false} RunChain(quota: string -> Option<real>, ls: seq<Line>, ps: seq<Progress>, k: nat)
    requires k <= |ls| && |ps| == k + 1
    requires forall i :: 0 <= i < k ==> Take(quota, ps[i], ls[i]) == Next(ps[i + 1])
    ensures Run(quota, ps[0], ls) == Run(quota, ps[k], ls[k..])
    decreases k
  {
    if k == 0 {
      assert ls[0..] == ls;
    } else {
      RunChain(quota, ls, ps[..k], k - 1);
      assert ls[k - 1..][0] == ls[k - 1] && ls[k - 1..][1..] == ls[k..];
      assert Take(quota, ps[k - 1], ls[k - 1]) == Next(ps[k]);
    }
  }

  predicate TextKey(key: Key) {
    key == NameKey || key == ExecKey || key == RestartKey || key == SeccompKey
  }

  lemma TakeText(quota: string -> Option<real>, p: Progress, l: Line, v: string)
    requires l.Assign? && TextKey(l.key) && l.val == Quoted(v) && p.section == ""
    ensures Take(quota, p, l) == Next(p.(spec := SetText(p.spec, l.key, v)))
  {
  }

  lemma TakeMemory(quota: string -> Option<real>, p: Progress, l: Line, v: string, limit: Option<int>)
    requires l.Assign? && l.key == MemoryKey && l.val == Quoted(v) && p.section == "" && limit == ParseMemoryLimit(v)
    ensures Take(quota, p, l) == SetMemory(p, limit)
  {
    UnquoteQuoted(v);
    MemoryStep(p, Quoted(v), v, limit);
  }

  lemma MemoryStep(p: Progress, val: string, t: string, limit: Option<int>)
    requires Unquote(val) == Some(t) && limit == ParseMemoryLimit(t)
    ensures StoreMemory(p, val) == SetMemory(p, limit)
  {
  }

  /** The lines of a printed definition, once read: a banner, then one assignment per flag. */
  ghost predicate ReadsAs(ls: seq<Line>, f: Flags) {
    && |ls| == 1 + Printed(f) && ls[0] == Blank
    && (forall i :: 1 <= i < |ls| ==> ls[i].Assign? && ls[i].val == Quoted(Values(f)[i - 1]))
    && ls[1].key == NameKey && ls[2].key == ExecKey && ls[3].key == RestartKey && ls[4].key == SeccompKey
    && (|ls| == 6 ==> ls[5].key == MemoryKey)
  }

  /** The specification once the text settings of a printed definition are stored. */
  function TextFields(f: Flags): ServiceSpec {
    DEFAULTS.(name := f.name, exec := f.exec, restart := f.restart, seccompProfile := f.seccomp)
  }

  /** The states the reader goes through over those settings. */
  lemma PrintedProgress(quota: string -> Option<real>, ls: seq<Line>, f: Flags) returns (ps: seq<Progress>)
    requires ReadsAs(ls, f)
    ensures |ps| == 6 && ps[0] == Progress(DEFAULTS, "") && ps[5] == Progress(TextFields(f), "")
    ensures forall i :: 0 <= i < 5 ==> Take(quota, ps[i], ls[i]) == Next(ps[i + 1])
  {
    var p0 := Progress(DEFAULTS, "");
    var p1 := Progress(SetText(DEFAULTS, NameKey, f.name), "");
    var p2 := Progress(SetText(p1.spec, ExecKey, f.exec), "");
    var p3 := Progress(SetText(p2.spec, RestartKey, f.restart), "");
    var p4 := Progress(SetText(p3.spec, SeccompKey, f.seccomp), "");
    TakeText(quota, p0, ls[1], f.name);
    TakeText(quota, p1, ls[2], f.exec);
    TakeText(quota, p2, ls[3], f.restart);
    TakeText(quota, p3, ls[4], f.seccomp);
    ps := [p0, p0, p1, p2, p3, p4];
  }

  lemma RunPrinted(quota: string -> Option<real>, ls: seq<Line>, f: Flags)
    requires ReadsAs(ls, f)
    ensures Run(quota, Progress(DEFAULTS, ""), ls) == Expected(f)
  {
    var ps := PrintedProgress(quota, ls, f);
    RunChain(quota, ls, ps, 5);
    LastLine(quota, ps[5], ls[5..], f);
  }

  lemma LastLine(quota: string -> Option<real>, p: Progress, rest: seq<Line>, f: Flags)
    requires p.section == "" && |rest| == Printed(f) - 4
    requires rest != [] ==> rest[0].Assign? && rest[0].key == MemoryKey && rest[0].val == Quoted(f.memory)
    ensures Run(quota, p, rest) == WithMemory(p.spec, f.memory, ParseMemoryLimit(f.memory))
  {
    if rest != [] {
      TakeMemory(quota, p, rest[0], f.memory, ParseMemoryLimit(f.memory));
      assert rest[1..] == [];
    }
  }

  lemma PrintedLineReads(f: Flags, i: nat)
    requires Printable(f) && 1 <= i < |RunLines(f)|
    ensures ReadLine(RunLines(f)[i]) ==
      if Size(RunLines(f)[i]) > MAX_LINE then TooLong
      else Assign(KeyOf(RUN_KEYS[i - 1]), RUN_KEYS[i - 1], Quoted(Values(f)[i - 1]))
  {
    var key, v := RUN_KEYS[i - 1], Values(f)[i - 1];
    PrintedKeys();
    assert RunLines(f)[i] == Setting(key, v);
    if Size(RunLines(f)[i]) <= MAX_LINE {
      SettingReads(key, v);
    }
  }

  lemma BannerReads()
    ensures ReadLine(BANNER) == Blank
  {
    TrimNothing(BANNER);
    SizeAtMost(BANNER);
  }

  lemma PrintedOneLine(f: Flags, ls: seq<string>, i: nat)
    requires Printable(f) && ls == RunLines(f) && i < |ls|
    ensures '\n' !in ls[i]
  {
    if i > 0 {
      PrintedKeys();
      assert ls[i] == Setting(RUN_KEYS[i - 1], Values(f)[i - 1]);
      SettingOneLine(RUN_KEYS[i - 1], Values(f)[i - 1]);
    }
  }

  lemma PrintedLinesSplit(f: Flags)
    requires Printable(f)
    ensures Lines(Text(RunLines(f))) == RunLines(f)
  {
    var ls := RunLines(f);
    forall i | 0 <= i < |ls|
      ensures '\n' !in ls[i]
    {
      PrintedOneLine(f, ls, i);
    }
    LinesOfText(ls);
  }

  lemma PrintedLinesRead(f: Flags)
    requires Printable(f) && WithinLimit(f)
    ensures ReadsAs(ReadAll(RunLines(f)), f)
  {
    BannerReads();
    PrintedKeys();
    forall i | 1 <= i < |RunLines(f)|
      ensures ReadLine(RunLines(f)[i]) == Assign(KeyOf(RUN_KEYS[i - 1]), RUN_KEYS[i - 1], Quoted(Values(f)[i - 1]))
    {
      PrintedLineReads(f, i);
      assert Size(RunLines(f)[i]) <= MAX_LINE;
    }
  }

  /** A line that cannot make the parser panic, in any section. */
  predicate Calm(l: Line) {
    l.Blank? || l.TooLong? || (l.Assign? && (TextKey(l.key) || l.key == MemoryKey) && Unquote(l.val).Some?)
  }

  lemma CalmTake(quota: string -> Option<real>, p: Progress, l: Line)
    requires Calm(l)
    ensures !Take(quota, p, l).Panic? && (l.TooLong? ==> Take(quota, p, l) == Invalid)
  {
  }

  /** Among calm lines, one that is too long has the whole text rejected. */
  lemma {:induction false} TooLongRejects(quota: string -> Option<real>, p: Progress, ls: seq<Line>)
    requires TooLong in ls && forall i :: 0 <= i < |ls| ==> Calm(ls[i])
    ensures Run(quota, p, ls) == Rejected
    decreases |ls|
  {
    CalmTake(quota, p, ls[0]);
    if ls[0] != TooLong && Take(quota, p, ls[0]).Next? {
      assert ls == [ls[0]] + ls[1..];
      TooLongRejects(quota, Take(quota, p, ls[0]).progress, ls[1..]);
    }
  }

  lemma PrintedLineCalm(f: Flags, i: nat)
    requires Printable(f) && i < |RunLines(f)|
    ensures Calm(ReadLine(RunLines(f)[i]))
  {
    if i == 0 {
      BannerReads();
    } else {
      PrintedLineReads(f, i);
      PrintedKeyKind(i - 1);
      SettingCalm(KeyOf(RUN_KEYS[i - 1]), RUN_KEYS[i - 1], Values(f)[i - 1]);
    }
  }

  lemma PrintedKeyKind(k: nat)
    requires k < 5
    ensures TextKey(KeyOf(RUN_KEYS[k])) || KeyOf(RUN_KEYS[k]) == MemoryKey
  {
    PrintedKeys();
    assert k == 0 || k == 1 || k == 2 || k == 3 || k == 4;
  }

  lemma SettingCalm(key: Key, text: string, v: string)
    requires TextKey(key) || key == MemoryKey
    ensures Calm(Assign(key, text, Quoted(v)))
  {
    UnquoteQuoted(v);
  }

  lemma PrintedTooLong(quota: string -> Option<real>, f: Flags)
    requires Printable(f) && !WithinLimit(f)
    ensures Run(quota, Progress(DEFAULTS, ""), ReadAll(RunLines(f))) == Rejected
  {
    var ls := ReadAll(RunLines(f));
    forall i | 0 <= i < |ls|
      ensures Calm(ls[i])
    {
      PrintedLineCalm(f, i);
    }
    var k :| 0 <= k < |RunLines(f)| && Size(RunLines(f)[k]) > MAX_LINE;
    assert ls[k] == TooLong;
    TooLongRejects(quota, Progress(DEFAULTS, ""), ls);
  }

  lemma PrintedReads(quota: string -> Option<real>, f: Flags)
    requires Printable(f)
    ensures Parse(quota, Text(RunLines(f))) == if WithinLimit(f) then Expected(f) else Rejected
  {
    PrintedLinesSplit(f);
    if WithinLimit(f) {
      PrintedLinesRead(f);
      RunPrinted(quota, ReadAll(RunLines(f)), f);
    } else {
      PrintedTooLong(quota, f);
    }
  }

  /**
   For all flag values whatever, parsing what `karim run` prints gives back the
   fields as %q escaped them, or a rejection when a printed line is too long: the
   parser never takes a printed character for syntax, never undoes an escape and
   never panics.
   */
  lemma RunReads(quota: string -> Option<real>, isPrint: Printer, f: Flags)
    ensures var g := EscapeAll(isPrint, f);
      Parse(quota, Text(RunLines(g))) == if WithinLimit(g) then Expected(g) else Rejected
  {
    var g := EscapeAll(isPrint, f);
    forall i | 0 <= i < 5
      ensures Enclosable(Values(g)[i])
    {
      EscapedEnclosable(isPrint, Values(f)[i]);
      EscapedValue(isPrint, f, i);
    }
    PrintedReads(quota, g);
  }

  predicate PlainFlags(isPrint: Printer, f: Flags) {
    && AllPlain(isPrint, f.name) && AllPlain(isPrint, f.exec) && AllPlain(isPrint, f.restart)
    && AllPlain(isPrint, f.seccomp) && AllPlain(isPrint, f.memory)
  }

  /** A mandatory flag is missing, or the memory flag is no size: the definition is refused either way. */
  predicate Refused(f: Flags) {
    f.name == "" || f.exec == "" || (f.memory != "" && ParseMemoryLimit(f.memory) == None)
  }

  /**
   The round trip: the same fields come back, `#`, `=`, apostrophes and commas
   included, if and only if all values are printable without double quote or
   backslash and no printed line is too long, or the flags are refused anyway.
   */
  lemma RunRoundTrip(quota: string -> Option<real>, isPrint: Printer, f: Flags)
    ensures var g := EscapeAll(isPrint, f);
      Parse(quota, Text(RunLines(g))) == Expected(f) <==> (PlainFlags(isPrint, f) && WithinLimit(g)) || Refused(f)
  {
    RunReads(quota, isPrint, f);
    EscapedExpected(isPrint, f);
    ExpectedRefusal(f);
  }

  lemma ExpectedRefusal(f: Flags)
    ensures Expected(f) == Rejected <==> Refused(f)
  {
  }

  /** Escaping leaves the text fields alone exactly when they are plain. */
  lemma EscapedTextFields(isPrint: Printer, f: Flags)
    ensures TextFields(EscapeAll(isPrint, f)) == TextFields(f) <==>
      && AllPlain(isPrint, f.name) && AllPlain(isPrint, f.exec)
      && AllPlain(isPrint, f.restart) && AllPlain(isPrint, f.seccomp)
  {
    EscapedGrows(isPrint, f.name);
    EscapedGrows(isPrint, f.exec);
    EscapedGrows(isPrint, f.restart);
    EscapedGrows(isPrint, f.seccomp);
  }

  /** A memory flag that is not plain is never a size once escaped. */
  lemma EscapedMemory(isPrint: Printer, s: string)
    ensures AllPlain(isPrint, s) ==> Escaped(isPrint, s) == s
    ensures !AllPlain(isPrint, s) ==> Escaped(isPrint, s) != "" && ParseMemoryLimit(Escaped(isPrint, s)) == None
  {
    EscapedGrows(isPrint, s);
    if !AllPlain(isPrint, s) {
      BackslashNoSize(Escaped(isPrint, s));
    }
  }

  lemma MemoryOutcome(a: ServiceSpec, b: ServiceSpec, memory: string, limit: Option<int>)
    requires a.name != "" && a.exec != "" && b.name != "" && b.exec != "" && a.memoryLimit == b.memoryLimit
    ensures WithMemory(a, memory, limit) == WithMemory(b, memory, limit) <==> a == b || (memory != "" && limit == None)
  {
    if memory != "" && limit.Some? {
      var m := limit.value;
      assert a.(memoryLimit := m) == b.(memoryLimit := m) ==> a.(memoryLimit := m).(memoryLimit := a.memoryLimit) == b;
    }
  }

  /** Escaping refuses nothing new but memory flags that are not plain. */
  lemma EscapedRefused(isPrint: Printer, f: Flags)
    ensures Refused(EscapeAll(isPrint, f)) <==> Refused(f) || !AllPlain(isPrint, f.memory)
  {
    EscapedGrows(isPrint, f.name);
    EscapedGrows(isPrint, f.exec);
    EscapedMemory(isPrint, f.memory);
    assert Escaped(isPrint, "") == "";
  }

  lemma EscapedExpected(isPrint: Printer, f: Flags)
    ensures Expected(EscapeAll(isPrint, f)) == Expected(f) <==> PlainFlags(isPrint, f) || Refused(f)
  {
    var g := EscapeAll(isPrint, f);
    EscapedRefused(isPrint, f);
    ExpectedRefusal(f);
    ExpectedRefusal(g);
    EscapedTextFields(isPrint, f);
    if !Refused(f) && !Refused(g) {
      EscapedMemory(isPrint, f.memory);
      MemoryOutcome(TextFields(f), TextFields(g), f.memory, ParseMemoryLimit(f.memory));
    }
  }

  /** A quote in a service name comes back with the backslash that %q put before it. */
  lemma QuoteComesBackEscaped(quota: string -> Option<real>, isPrint: Printer, f: Flags)
    requires f == Flags("\"", "x", "", "", "")
    ensures Parse(quota, Text(RunLines(EscapeAll(isPrint, f)))) == Parsed(TextFields(f.(name := "\\\"")))
  {
    var g := EscapeAll(isPrint, f);
    EscapedChar(isPrint, '"');
    EscapedChar(isPrint, 'x');
    assert g == Flags("\\\"", "x", "", "", "");
    forall i | 0 <= i < |RunLines(g)|
      ensures Size(RunLines(g)[i]) <= MAX_LINE
    {
      SizeAtMost(RunLines(g)[i]);
    }
    RunReads(quota, isPrint, f);
  }

  lemma EscapedChar(isPrint: Printer, c: char)
    ensures Escaped(isPrint, [c]) == Escape(isPrint, c)
  {
    assert [c][1..] == "";
  }
}
