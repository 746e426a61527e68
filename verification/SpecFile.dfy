/**
 Whole service files, as a person writes them, and the specification they mean
 (internal/svcd/config.go): settings in any order and spelling, with comments,
 section headers, blank lines and environment sections.
 */
module SpecFile {
  import opened Common
  import opened Strings
  import opened Config
  import opened ServiceFile
  import opened SettingLines

  // ---------------------------------------------------------------- files

  const FIELDS: nat := 14

  /** A spelling of the i-th setting's key, in any case. */
  predicate Spells(i: nat, key: string) {
    var k := ToLower(key);
    match i
    case 0 => k == "name"
    case 1 => k == "exec"
    case 2 => k == "directory"
    case 3 => k == "root_dir" || k == "rootdir" || k == "chroot"
    case 4 => k == "restart"
    case 5 => k == "seccomp_profile"
    case 6 => k == "args"
    case 7 => k == "after"
    case 8 => k == "capabilities_add" || k == "capabilities.add"
    case 9 => k == "capabilities_drop" || k == "capabilities.drop"
    case 10 => k == "memory_limit"
    case 11 => k == "cpu_quota"
    case 12 => k == "max_restarts"
    case 13 => k == "no_new_privs"
    case _ => false
  }

  /**
   A line: the i-th setting, an `env` list, a variable of an environment section, a
   section header, or blanks or a comment alone.
   */
  datatype Row =
    | Field(i: nat, key: string, comment: Option<string>)
    | EnvList(key: string, items: seq<string>, comment: Option<string>)
    | Variable(key: string, val: string, comment: Option<string>)
    | Header(name: string)
    | Remark(text: string)

  /** A file written for a specification; `quota` and `flag` are the words for its cpu_quota and no_new_privs. */
  datatype File = File(spec: ServiceSpec, quota: string, flag: string, rows: seq<Row>)

  /** The i-th setting's value in its notation. */
  function ValueOf(f: File, i: nat): Value {
    match i
    case 0 => TextValue(f.spec.name)
    case 1 => TextValue(f.spec.exec)
    case 2 => TextValue(f.spec.directory)
    case 3 => TextValue(f.spec.rootDir)
    case 4 => TextValue(f.spec.restart)
    case 5 => TextValue(f.spec.seccompProfile)
    case 6 => ListValue(f.spec.args)
    case 7 => ListValue(f.spec.after)
    case 8 => ListValue(f.spec.capabilitiesAdd)
    case 9 => ListValue(f.spec.capabilitiesDrop)
    case 10 => NumberValue(f.spec.memoryLimit)
    case 11 => Word(f.quota)
    case 12 => NumberValue(f.spec.maxRestarts)
    case _ => Word(f.flag)
  }

  function SectionLine(name: string): string {
    "[" + name + "]"
  }

  function RowText(f: File, r: Row): string {
    match r
    case Field(i, key, comment) => LineOf(key, ValueOf(f, i), comment)
    case EnvList(key, items, comment) => LineOf(key, ListValue(items), comment)
    case Variable(key, val, comment) => LineOf(key, TextValue(val), comment)
    case Header(name) => SectionLine(name)
    case Remark(text) => text
  }

  /** All lines of the file. */
  function Texts(f: File): (ls: seq<string>)
    ensures |ls| == |f.rows|
  {
    seq(|f.rows|, i requires 0 <= i < |f.rows| => RowText(f, f.rows[i]))
  }

  // ------------------------------------------------------- what can be written

  predicate IsEnvName(name: string) {
    ToLower(name) == "env" || ToLower(name) == "environment"
  }

  /** A comment may only follow a value without `#`. */
  predicate LineOk(key: string, v: Value, comment: Option<string>) {
    && IsWord(key) && Writable(v) && CommentOk(comment) && (comment.Some? ==> '#' !in Written(v))
    && Size(LineOf(key, v, comment)) <= MAX_LINE
  }

  predicate HeaderOk(name: string) {
    IsWord(name) && Size(SectionLine(name)) <= MAX_LINE
  }

  predicate RemarkOk(text: string) {
    '\n' !in text && Size(text) <= MAX_LINE && (TrimSpace(text) == "" || HasPrefix(TrimSpace(text), "#"))
  }

  predicate RowOk(f: File, r: Row) {
    match r
    case Field(i, key, comment) => i < FIELDS && Spells(i, key) && LineOk(key, ValueOf(f, i), comment)
    case EnvList(key, items, comment) => IsEnvName(key) && LineOk(key, ListValue(items), comment)
    case Variable(key, val, comment) => LineOk(key, TextValue(val), comment)
    case Header(name) => HeaderOk(name)
    case Remark(text) => RemarkOk(text)
  }

  /** Settings stand outside environment sections, variables inside. */
  predicate Fits(section: string, r: Row) {
    var inside := section == "env" || section == "environment";
    (r.Field? || r.EnvList? ==> !inside) && (r.Variable? ==> inside)
  }

  /** The words mean what the specification says. */
  predicate WordsOk(quota: string -> Option<real>, f: File) {
    && quota(f.quota) == Some(f.spec.cpuQuota)
    && (f.spec.noNewPrivs <==> ToLower(f.flag) == "true" || ToLower(f.flag) == "1" || ToLower(f.flag) == "yes")
  }

  predicate RowFits(f: File, k: nat)
    requires k < |f.rows|
  {
    RowOk(f, f.rows[k]) && Fits(SectionOf(f.rows[..k]), f.rows[k])
  }

  predicate FileOk(quota: string -> Option<real>, f: File) {
    WordsOk(quota, f) && forall k :: 0 <= k < |f.rows| ==> RowFits(f, k)
  }

  // -------------------------------------------------------- what a file means

  /** The settings that occur. */
  function Set(rows: seq<Row>): set<nat> {
    if rows == [] then {}
    else
      var r := rows[|rows| - 1];
      Set(rows[..|rows| - 1]) + (if r.Field? then {r.i} else {})
  }

  /** The environment: listed entries and variables, in the order they occur. */
  function EnvOf(rows: seq<Row>): seq<string> {
    if rows == [] then [] else EnvOf(rows[..|rows| - 1]) + EnvOfRow(rows[|rows| - 1])
  }

  function EnvOfRow(r: Row): seq<string> {
    match r
    case EnvList(_, items, _) => items
    case Variable(key, val, _) => [key + "=" + val]
    case _ => []
  }

  function SectionOf(rows: seq<Row>): string {
    if rows == [] then ""
    else
      var r := rows[|rows| - 1];
      if r.Header? then ToLower(r.name) else SectionOf(rows[..|rows| - 1])
  }

  /** The specification with only the given settings, and the defaults for the rest. */
  function Only(s: ServiceSpec, done: set<nat>, env: seq<string>): ServiceSpec {
    ServiceSpec(
      if 0 in done then s.name else "",
      if 1 in done then s.exec else "",
      if 6 in done then s.args else [],
      env,
      if 2 in done then s.directory else "",
      if 3 in done then s.rootDir else "",
      if 7 in done then s.after else [],
      if 10 in done then s.memoryLimit else 0,
      if 11 in done then s.cpuQuota else 0.0,
      if 4 in done then s.restart else "on-failure",
      if 12 in done then s.maxRestarts else 0,
      if 5 in done then s.seccompProfile else "app-default",
      if 8 in done then s.capabilitiesAdd else [],
      if 9 in done then s.capabilitiesDrop else [],
      if 13 in done then s.noNewPrivs else true)
  }

  // -------------------------------------------------------------- single rows

  function KeyFor(i: nat): Key {
    match i
    case 0 => NameKey
    case 1 => ExecKey
    case 2 => DirectoryKey
    case 3 => RootDirKey
    case 4 => RestartKey
    case 5 => SeccompKey
    case 6 => ArgsKey
    case 7 => AfterKey
    case 8 => CapsAddKey
    case 9 => CapsDropKey
    case 10 => MemoryKey
    case 11 => QuotaKey
    case 12 => MaxRestartsKey
    case _ => NoNewPrivsKey
  }

  lemma SpelledKey(i: nat, key: string)
    requires i < FIELDS && Spells(i, key)
    ensures KeyOf(ToLower(key)) == KeyFor(i)
  {
  }

  lemma TextStored(quota: string -> Option<real>, p: Progress, key: Key, t: string)
    requires key in {NameKey, ExecKey, DirectoryKey, RootDirKey, RestartKey, SeccompKey}
    ensures Store(quota, p, key, Quoted(t)) == Next(p.(spec := SetText(p.spec, key, t)))
  {
    UnquoteQuoted(t);
  }

  lemma ListTextStored(quota: string -> Option<real>, p: Progress, key: Key, val: string, items: seq<string>)
    requires key in {ArgsKey, EnvKey, AfterKey, CapsAddKey, CapsDropKey} && ArrayOf(val) == Some(items)
    ensures Store(quota, p, key, val) == Next(p.(spec := SetList(p.spec, key, items)))
  {
    assert StoreList(p, key, val) == Next(p.(spec := SetList(p.spec, key, items)));
  }

  lemma ListStored(quota: string -> Option<real>, p: Progress, key: Key, items: seq<string>)
    requires key in {ArgsKey, EnvKey, AfterKey, CapsAddKey, CapsDropKey} && Writable(ListValue(items))
    ensures Store(quota, p, key, Written(ListValue(items))) == Next(p.(spec := SetList(p.spec, key, items)))
  {
    QuotedArrayRoundTrip(items);
    ListTextStored(quota, p, key, RenderArray(InDouble(items)), items);
  }

  lemma PlainWordUnquoted(w: string)
    requires PlainWord(w)
    ensures TrimSpace(w) == w && Unquote(w) == Some(w)
  {
    assert w[0] in w;
    TrimNothing(w);
  }

  predicate DigitsOrMinus(s: string) {
    forall i :: 0 <= i < |s| ==> IsDigit(s[i]) || s[i] == '-'
  }

  lemma UpperSame(s: string)
    requires DigitsOrMinus(s)
    ensures ToUpper(s) == s
  {
    forall i | 0 <= i < |s|
      ensures ToUpper(s)[i] == s[i]
    {
      assert IsDigit(s[i]) || s[i] == '-';
    }
  }

  lemma NotSuffix(s: string, p: string)
    requires s != "" && p != "" && s[|s| - 1] != p[|p| - 1]
    ensures !HasSuffix(s, p)
  {
    if |p| <= |s| {
      assert s[|s| - |p|..][|p| - 1] == s[|s| - 1];
    }
  }

  lemma EndsWithoutUnit(s: string, l: char)
    requires s != "" && IsDigit(s[|s| - 1]) && !IsDigit(l)
    ensures !HasUnit(s, l)
  {
    NotSuffix(s, [l]);
    NotSuffix(s, [l, 'B']);
  }

  lemma SignedDigits(n: int)
    ensures var s := Signed(n); s != "" && DigitsOrMinus(s) && IsDigit(s[|s| - 1])
  {
    var m := if n < 0 then -n else n;
    DecimalValue(m);
    var d := Decimal(m);
    assert IsDigit(d[|d| - 1]);
  }

  lemma SignedUpper(n: int)
    requires FitsInt64(n)
    ensures var s := Signed(n); ToUpper(s) == s && !HasUnit(s, 'G') && !HasUnit(s, 'M') && !HasUnit(s, 'K')
  {
    var s := Signed(n);
    SignedDigits(n);
    UpperSame(s);
    EndsWithoutUnit(s, 'G');
    EndsWithoutUnit(s, 'M');
    EndsWithoutUnit(s, 'K');
  }

  lemma SignedMemory(n: int)
    requires FitsInt64(n)
    ensures ParseMemoryLimit(Signed(n)) == Some(n)
  {
    SignedReads(n);
    PlainWordUnquoted(Signed(n));
    SignedUpper(n);
    assert Scaled(Signed(n), 1) == Some(Wrap64(n * 1));
  }

  lemma MemoryTextStored(quota: string -> Option<real>, p: Progress, t: string, limit: Option<int>)
    requires Unquote(t) == Some(t) && limit == ParseMemoryLimit(t)
    ensures Store(quota, p, MemoryKey, t) == SetMemory(p, limit)
  {
    MemoryStep(p, t, t, limit);
  }

  lemma MemoryStored(quota: string -> Option<real>, p: Progress, n: int)
    requires FitsInt64(n)
    ensures Store(quota, p, MemoryKey, Signed(n)) == Next(p.(spec := p.spec.(memoryLimit := n)))
  {
    SignedReads(n);
    PlainWordUnquoted(Signed(n));
    SignedMemory(n);
    MemoryTextStored(quota, p, Signed(n), Some(n));
  }

  lemma CountStored(quota: string -> Option<real>, p: Progress, n: int)
    requires FitsInt64(n)
    ensures Store(quota, p, MaxRestartsKey, Signed(n)) == Next(p.(spec := p.spec.(maxRestarts := n)))
  {
    SignedReads(n);
    PlainWordUnquoted(Signed(n));
  }

  lemma QuotaStored(quota: string -> Option<real>, p: Progress, w: string, q: real)
    requires PlainWord(w) && quota(w) == Some(q)
    ensures Store(quota, p, QuotaKey, w) == Next(p.(spec := p.spec.(cpuQuota := q)))
  {
    PlainWordUnquoted(w);
  }

  lemma FlagStored(quota: string -> Option<real>, p: Progress, w: string, b: bool)
    requires PlainWord(w) && (b <==> ToLower(w) == "true" || ToLower(w) == "1" || ToLower(w) == "yes")
    ensures Store(quota, p, NoNewPrivsKey, w) == Next(p.(spec := p.spec.(noNewPrivs := b)))
  {
    PlainWordUnquoted(w);
  }

  /** The i-th setting sets its own field and nothing else. */
  lemma FieldStored(quota: string -> Option<real>, f: File, i: nat, done: set<nat>, env: seq<string>, section: string)
    requires i < FIELDS && WordsOk(quota, f) && Writable(ValueOf(f, i))
    ensures Store(quota, Progress(Only(f.spec, done, env), section), KeyFor(i), Written(ValueOf(f, i)))
      == Next(Progress(Only(f.spec, done + {i}, env), section))
  {
    var p := Progress(Only(f.spec, done, env), section);
    if i < 6 {
      TextStored(quota, p, KeyFor(i), ValueOf(f, i).text);
      TextFilled(f.spec, f, i, done, env);
    } else if i < 10 {
      ListStored(quota, p, KeyFor(i), ValueOf(f, i).items);
      ListFilled(f.spec, f, i, done, env);
    } else {
      RestStored(quota, f, i, p, Progress(Only(f.spec, done + {i}, env), section), done, env);
    }
  }

  lemma Rest(s: ServiceSpec, i: nat, done: set<nat>, env: seq<string>)
    requires 10 <= i < FIELDS
    ensures var now := Only(s, done, env);
      Only(s, done + {i}, env) ==
        if i == 10 then now.(memoryLimit := s.memoryLimit)
        else if i == 11 then now.(cpuQuota := s.cpuQuota)
        else if i == 12 then now.(maxRestarts := s.maxRestarts)
        else now.(noNewPrivs := s.noNewPrivs)
  {
  }

  lemma RestStored(quota: string -> Option<real>, f: File, i: nat, p: Progress, next: Progress,
                   done: set<nat>, env: seq<string>)
    requires 10 <= i < FIELDS && WordsOk(quota, f) && Writable(ValueOf(f, i))
    requires p.spec == Only(f.spec, done, env) && next == p.(spec := Only(f.spec, done + {i}, env))
    ensures Store(quota, p, KeyFor(i), Written(ValueOf(f, i))) == Next(next)
  {
    Rest(f.spec, i, done, env);
    if i == 10 {
      MemoryStored(quota, p, f.spec.memoryLimit);
    } else if i == 11 {
      QuotaStored(quota, p, f.quota, f.spec.cpuQuota);
    } else if i == 12 {
      CountStored(quota, p, f.spec.maxRestarts);
    } else {
      FlagStored(quota, p, f.flag, f.spec.noNewPrivs);
    }
  }

  lemma TextFilled(s: ServiceSpec, f: File, i: nat, done: set<nat>, env: seq<string>)
    requires i < 6 && s == f.spec
    ensures ValueOf(f, i).TextValue?
    ensures SetText(Only(s, done, env), KeyFor(i), ValueOf(f, i).text) == Only(s, done + {i}, env)
  {
    if i < 3 {
      FirstTexts(s, i, done, env);
    } else {
      LastTexts(s, i, done, env);
    }
  }

  lemma FirstTexts(s: ServiceSpec, i: nat, done: set<nat>, env: seq<string>)
    requires i < 3
    ensures var now := Only(s, done, env);
      Only(s, done + {i}, env) ==
        if i == 0 then now.(name := s.name) else if i == 1 then now.(exec := s.exec) else now.(directory := s.directory)
  {
  }

  lemma LastTexts(s: ServiceSpec, i: nat, done: set<nat>, env: seq<string>)
    requires 3 <= i < 6
    ensures var now := Only(s, done, env);
      Only(s, done + {i}, env) ==
        if i == 3 then now.(rootDir := s.rootDir)
        else if i == 4 then now.(restart := s.restart)
        else now.(seccompProfile := s.seccompProfile)
  {
  }

  lemma Lists(s: ServiceSpec, i: nat, done: set<nat>, env: seq<string>)
    requires 6 <= i < 10
    ensures var now := Only(s, done, env);
      Only(s, done + {i}, env) ==
        if i == 6 then now.(args := s.args)
        else if i == 7 then now.(after := s.after)
        else if i == 8 then now.(capabilitiesAdd := s.capabilitiesAdd)
        else now.(capabilitiesDrop := s.capabilitiesDrop)
  {
  }

  lemma ListFilled(s: ServiceSpec, f: File, i: nat, done: set<nat>, env: seq<string>)
    requires 6 <= i < 10 && s == f.spec
    ensures ValueOf(f, i).ListValue?
    ensures SetList(Only(s, done, env), KeyFor(i), ValueOf(f, i).items) == Only(s, done + {i}, env)
  {
    Lists(s, i, done, env);
  }

  lemma SectionReads(name: string)
    requires HeaderOk(name)
    ensures ReadLine(SectionLine(name)) == Section(ToLower(name)) && '\n' !in SectionLine(name)
  {
    var line := SectionLine(name);
    WordNeutral(name);
    TrimNothing(line);
    assert '#' !in line;
    assert line[1..|line| - 1] == name;
    assert WordChar(name[0]) && WordChar(name[|name| - 1]);
    TrimNothing(name);
    assert HasPrefix(line, "[") && HasSuffix(line, "]");
    assert line[0] == '[' && "#"[0] == '#';
  }

  lemma RemarkReads(text: string)
    requires RemarkOk(text)
    ensures ReadLine(text) == Blank
  {
  }

  /** Where the parser stands after the given rows. */
  function Standing(f: File, rows: seq<Row>): Progress {
    Progress(Only(f.spec, Set(rows), EnvOf(rows)), SectionOf(rows))
  }

  lemma RowOneLine(f: File, r: Row)
    requires RowOk(f, r)
    ensures '\n' !in RowText(f, r)
  {
    match r {
      case Field(i, key, comment) =>
        LineOneLine(key, ValueOf(f, i), comment);
      case EnvList(key, items, comment) =>
        LineOneLine(key, ListValue(items), comment);
      case Variable(key, val, comment) =>
        LineOneLine(key, TextValue(val), comment);
      case Header(name) =>
        SectionReads(name);
      case Remark(text) =>
    }
  }

  /** With the conditions of a line, its value is read without any comment. */
  lemma ReadsPlainly(key: string, v: Value, comment: Option<string>, text: string)
    requires LineOk(key, v, comment) && text == LineOf(key, v, comment)
    ensures ReadLine(text) == Assign(KeyOf(ToLower(key)), key, Written(v))
  {
    LineReads(key, v, comment);
    NoHashSame(Written(v), comment);
  }

  lemma NoHashSame(t: string, comment: Option<string>)
    requires comment.Some? ==> '#' !in t
    ensures (if '#' in t then Remarked(t, comment) else t) == t
  {
  }

  lemma FieldTaken(quota: string -> Option<real>, f: File, r: Row, p: Progress, l: Line,
                   done: set<nat>, env: seq<string>)
    requires WordsOk(quota, f) && r.Field? && RowOk(f, r) && p.section != "env" && p.section != "environment"
    requires p.spec == Only(f.spec, done, env) && l == ReadLine(RowText(f, r))
    ensures Take(quota, p, l) == Next(p.(spec := Only(f.spec, done + {r.i}, env)))
  {
    ReadsPlainly(r.key, ValueOf(f, r.i), r.comment, RowText(f, r));
    SpelledKey(r.i, r.key);
    FieldStored(quota, f, r.i, done, env, p.section);
  }

  lemma EnvName(key: string)
    requires IsEnvName(key)
    ensures KeyOf(ToLower(key)) == EnvKey
  {
  }

  lemma EnvListTaken(quota: string -> Option<real>, f: File, r: Row, p: Progress, l: Line,
                     done: set<nat>, env: seq<string>)
    requires r.EnvList? && RowOk(f, r) && p.section != "env" && p.section != "environment"
    requires p.spec == Only(f.spec, done, env) && l == ReadLine(RowText(f, r))
    ensures Take(quota, p, l) == Next(p.(spec := Only(f.spec, done, env + r.items)))
  {
    ReadsPlainly(r.key, ListValue(r.items), r.comment, RowText(f, r));
    EnvName(r.key);
    ListStored(quota, p, EnvKey, r.items);
  }

  /** In an environment section a line adds one variable, under its key as spelled. */
  lemma VariableTaken(quota: string -> Option<real>, f: File, r: Row, p: Progress, l: Line,
                      done: set<nat>, env: seq<string>)
    requires r.Variable? && RowOk(f, r) && (p.section == "env" || p.section == "environment")
    requires p.spec == Only(f.spec, done, env) && l == ReadLine(RowText(f, r))
    ensures Take(quota, p, l) == Next(p.(spec := Only(f.spec, done, env + [r.key + "=" + r.val])))
  {
    ReadsPlainly(r.key, TextValue(r.val), r.comment, RowText(f, r));
    UnquoteQuoted(r.val);
  }

  lemma StandingNext(f: File, rows: seq<Row>, r: Row)
    ensures Standing(f, rows + [r]) == Progress(
      Only(f.spec, if r.Field? then Set(rows) + {r.i} else Set(rows), EnvOf(rows) + EnvOfRow(r)),
      if r.Header? then ToLower(r.name) else SectionOf(rows))
  {
    assert (rows + [r])[..|rows|] == rows;
    assert Set(rows) + {} == Set(rows);
  }

  lemma RowTaken(quota: string -> Option<real>, f: File, rows: seq<Row>, r: Row, p: Progress, l: Line, next: Progress)
    requires WordsOk(quota, f) && RowOk(f, r) && Fits(SectionOf(rows), r)
    requires p == Standing(f, rows) && l == ReadLine(RowText(f, r)) && next == Standing(f, rows + [r])
    ensures Take(quota, p, l) == Next(next)
  {
    StandingNext(f, rows, r);
    var env := EnvOf(rows);
    match r {
      case Field(_, _, _) =>
        FieldTaken(quota, f, r, p, l, Set(rows), env);
        assert env + [] == env;
      case EnvList(_, _, _) =>
        EnvListTaken(quota, f, r, p, l, Set(rows), env);
      case Variable(_, _, _) =>
        VariableTaken(quota, f, r, p, l, Set(rows), env);
      case Header(name) =>
        SectionReads(name);
        assert env + [] == env;
      case Remark(text) =>
        RemarkReads(text);
        assert env + [] == env;
    }
  }

  // -------------------------------------------------------------- whole files

  /** All the states the parser goes through. */
  function States(f: File): (ps: seq<Progress>)
    ensures |ps| == |f.rows| + 1
  {
    seq(|f.rows| + 1, k requires 0 <= k < |f.rows| + 1 => Standing(f, f.rows[..k]))
  }

  lemma LineTaken(quota: string -> Option<real>, f: File, k: nat, p: Progress, l: Line, next: Progress)
    requires WordsOk(quota, f) && k < |f.rows| && RowFits(f, k)
    requires p == Standing(f, f.rows[..k]) && l == ReadLine(RowText(f, f.rows[k])) && next == Standing(f, f.rows[..k + 1])
    ensures Take(quota, p, l) == Next(next)
  {
    TakeNext(f.rows, k);
    RowTaken(quota, f, f.rows[..k], f.rows[k], p, l, next);
  }

  lemma LinesTaken(quota: string -> Option<real>, f: File, ls: seq<Line>, ps: seq<Progress>)
    requires FileOk(quota, f) && ls == ReadAll(Texts(f)) && ps == States(f)
    ensures Run(quota, ps[0], ls) == Check(ps[|ls|].spec)
  {
    forall k | 0 <= k < |ls|
      ensures Take(quota, ps[k], ls[k]) == Next(ps[k + 1])
    {
      assert RowFits(f, k);
      LineTaken(quota, f, k, ps[k], ls[k], ps[k + 1]);
    }
    RunChain(quota, ls, ps, |ls|);
    assert ls[|ls|..] == [];
  }

  /**
   A file means exactly what it says: every setting that occurs sets its own field,
   whatever the order, the spelling of its key, comments, headers and blank lines
   around it; settings that do not occur keep their defaults; and the environment is
   the listed entries and the variables of environment sections, in order.
   */
  lemma FileMeans(quota: string -> Option<real>, f: File)
    requires FileOk(quota, f)
    ensures var spec := Only(f.spec, Set(f.rows), EnvOf(f.rows));
      Parse(quota, Text(Texts(f))) == if spec.exec == "" || spec.name == "" then Rejected else Parsed(spec)
  {
    var texts := Texts(f);
    forall k | 0 <= k < |texts|
      ensures '\n' !in texts[k]
    {
      assert RowFits(f, k);
      RowOneLine(f, f.rows[k]);
    }
    LinesOfText(texts);
    LinesTaken(quota, f, ReadAll(texts), States(f));
    TakeEnds(f.rows);
    StartsAtDefaults(f);
  }

  lemma StartsAtDefaults(f: File)
    ensures Standing(f, []) == Progress(DEFAULTS, "")
  {
  }

  /** In particular every specification written out in full, in any such way, is parsed back exactly. */
  lemma SpecRoundTrip(quota: string -> Option<real>, f: File)
    requires FileOk(quota, f) && f.spec.name != "" && f.spec.exec != ""
    requires forall i :: 0 <= i < FIELDS ==> i in Set(f.rows)
    requires f.spec.env == EnvOf(f.rows)
    ensures Parse(quota, Text(Texts(f))) == Parsed(f.spec)
  {
    FileMeans(quota, f);
    AllSet(f);
  }

  lemma AllSet(f: File)
    requires forall i :: 0 <= i < FIELDS ==> i in Set(f.rows)
    ensures Only(f.spec, Set(f.rows), f.spec.env) == f.spec
  {
    var done := Set(f.rows);
    assert 0 in done && 1 in done && 2 in done && 3 in done && 4 in done && 5 in done && 6 in done;
    assert 7 in done && 8 in done && 9 in done && 10 in done && 11 in done && 12 in done && 13 in done;
  }

  /** A service named "a#b", with a comment after it: the comment stays on the name. */
  lemma HashKeepsComment(t: string, c: string)
    requires t == "a#b" && c == " c"
    ensures ReadLine(LineOf("name", TextValue(t), Some(c))) == Assign(NameKey, "name", Quoted(t) + " #" + c)
  {
    var line := LineOf("name", TextValue(t), Some(c));
    SizeAtMost(line);
    assert t[1] == '#' && Quoted(t)[2] == '#';
    LineReads("name", TextValue(t), Some(c));
    SpelledName("name");
  }

  lemma SpelledName(key: string)
    requires key == "name"
    ensures KeyOf(ToLower(key)) == NameKey && IsWord(key)
  {
    KeyIsLower(key);
  }
}
