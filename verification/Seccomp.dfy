/**
 The seccomp filter compiler (internal/secd/seccomp.go) and the classic BPF
 machine its filters run on.
 */
module Seccomp {
  import opened Common
  import opened Strings

  type uint8 = n: int | 0 <= n < 256

  /** The three instructions the compiler emits: load a word of seccomp_data, compare, return. */
  datatype Instr = LoadAbs(k: uint32) | JumpEq(k: uint32, jt: uint8, jf: uint8) | Ret(k: uint32)

  type Program = seq<Instr>

  /** The part of struct seccomp_data a filter may look at. */
  datatype Syscall = Syscall(nr: uint32, arch: uint32)

  const AUDIT_ARCH_X86_64: uint32 := 0xC000003E
  const RET_ALLOW: uint32 := 0x7FFF0000
  const RET_KILL_PROCESS: uint32 := 0x80000000

  const OFFSET_NR: uint32 := 0
  const OFFSET_ARCH: uint32 := 4

  /** The verdict of running from `pc` with accumulator `acc`; None when the program runs off its end or misreads. */
  function Exec(p: Program, pc: nat, acc: uint32, sc: Syscall): Option<uint32>
    decreases |p| - pc
  {
    if pc >= |p| then None
    else
      match p[pc]
      case LoadAbs(k) =>
        if k == OFFSET_NR then Exec(p, pc + 1, sc.nr, sc)
        else if k == OFFSET_ARCH then Exec(p, pc + 1, sc.arch, sc)
        else None
      case JumpEq(k, jt, jf) => Exec(p, pc + 1 + (if acc == k then jt else jf), acc, sc)
      case Ret(k) => Some(k)
  }

  function Verdict(p: Program, sc: Syscall): Option<uint32> {
    Exec(p, 0, 0, sc)
  }

  // ------------------------------------------------------------ the compilers

  const PROLOGUE: Program := [
    LoadAbs(OFFSET_ARCH),
    JumpEq(AUDIT_ARCH_X86_64, 1, 0),
    Ret(RET_KILL_PROCESS),
    LoadAbs(OFFSET_NR)
  ]

  /** The Go conversion uint8(n). */
  function Uint8(n: nat): uint8 {
    n % 256
  }

  /** One comparison per listed number, each jumping over the rest and the first return. */
  ghost predicate Compares(checks: Program, nums: seq<uint32>, n: nat)
    requires |nums| <= n
  {
    |checks| == |nums| && forall i :: 0 <= i < |nums| ==> checks[i] == JumpEq(nums[i], Uint8(n - i), 0)
  }

  /** The shape both compilers produce: `miss` when no comparison matches, `hit` when one does. */
  ghost predicate IsFilter(p: Program, nums: seq<uint32>, miss: uint32, hit: uint32) {
    && |p| == 4 + |nums| + 2
    && p[..4] == PROLOGUE
    && Compares(p[4..4 + |nums|], nums, |nums|)
    && p[4 + |nums|] == Ret(miss)
    && p[5 + |nums|] == Ret(hit)
  }

  /** The loop shared by both compilers. */
  method EmitFilter(nums: seq<uint32>, miss: uint32, hit: uint32) returns (p: Program)
    ensures IsFilter(p, nums, miss, hit)
  {
    p := PROLOGUE;
    var n := |nums|;
    for i := 0 to n
      invariant |p| == 4 + i && p[..4] == PROLOGUE
      invariant forall j :: 0 <= j < i ==> p[4 + j] == JumpEq(nums[j], Uint8(n - j), 0)
    {
      p := p + [JumpEq(nums[i], Uint8(n - i), 0)];
    }
    p := p + [Ret(miss)];
    p := p + [Ret(hit)];
  }

  method CompileWhitelistFilter(allowed: seq<uint32>, defaultAction: uint32) returns (p: Program)
    ensures IsFilter(p, allowed, defaultAction, RET_ALLOW)
    ensures forall sc :: Verdict(p, sc) == Some(WhitelistVerdict(allowed, defaultAction, sc))
    ensures forall sc :: Verdict(p, sc) == Some(
      if sc.arch != 0xC000003E then 0x80000000
      else if exists i :: 0 <= i < |allowed| && |allowed| - 255 <= i && allowed[i] == sc.nr then 0x7FFF0000
      else defaultAction)
  {
    p := EmitFilter(allowed, defaultAction, RET_ALLOW);
    forall sc
      ensures Verdict(p, sc) == Some(WhitelistVerdict(allowed, defaultAction, sc))
    {
      FilterCorrect(p, allowed, defaultAction, RET_ALLOW, sc);
    }
    forall nr
      ensures nr in Effective(allowed) <==>
        exists i :: 0 <= i < |allowed| && |allowed| - 255 <= i && allowed[i] == nr
    {
      EffectiveExact(allowed, nr);
    }
  }

  method CompileBlacklistFilter(denied: seq<uint32>, deniedAction: uint32) returns (p: Program)
    ensures IsFilter(p, denied, RET_ALLOW, deniedAction)
    ensures forall sc :: Verdict(p, sc) == Some(BlacklistVerdict(denied, deniedAction, sc))
    ensures forall sc :: Verdict(p, sc) == Some(
      if sc.arch != 0xC000003E then 0x80000000
      else if exists i :: 0 <= i < |denied| && |denied| - 255 <= i && denied[i] == sc.nr then deniedAction
      else 0x7FFF0000)
  {
    p := EmitFilter(denied, RET_ALLOW, deniedAction);
    forall sc
      ensures Verdict(p, sc) == Some(BlacklistVerdict(denied, deniedAction, sc))
    {
      FilterCorrect(p, denied, RET_ALLOW, deniedAction, sc);
    }
    forall nr
      ensures nr in Effective(denied) <==> exists i :: 0 <= i < |denied| && |denied| - 255 <= i && denied[i] == nr
    {
      EffectiveExact(denied, nr);
    }
  }

  // ------------------------------------------------------ what a filter means

  /** The entries an 8-bit jump offset can serve: the last 255. */
  function Effective(nums: seq<uint32>): seq<uint32> {
    if |nums| <= 255 then nums else nums[|nums| - 255..]
  }

  function WhitelistVerdict(allowed: seq<uint32>, defaultAction: uint32, sc: Syscall): uint32 {
    if sc.arch != AUDIT_ARCH_X86_64 then RET_KILL_PROCESS
    else if sc.nr in Effective(allowed) then RET_ALLOW
    else defaultAction
  }

  function BlacklistVerdict(denied: seq<uint32>, deniedAction: uint32, sc: Syscall): uint32 {
    if sc.arch != AUDIT_ARCH_X86_64 then RET_KILL_PROCESS
    else if sc.nr in Effective(denied) then deniedAction
    else RET_ALLOW
  }

  // ------------------------------------------------------------------- proofs

  /** `nr` is among the entries from `i` on that an offset can serve. */
  ghost predicate HitFrom(nums: seq<uint32>, i: nat, nr: uint32) {
    exists j :: i <= j < |nums| && |nums| - j <= 255 && nums[j] == nr
  }

  /** A matched comparison whose offset wrapped lands no later than the first entry an offset can serve. */
  lemma WrappedJump(n: nat, i: nat)
    requires i < n && n - i > 255
    ensures i + 1 + Uint8(n - i) <= n - 255
  {
  }

  lemma {:induction false} ChecksCorrect(p: Program, nums: seq<uint32>, miss: uint32, hit: uint32, sc: Syscall, i: nat)
    requires IsFilter(p, nums, miss, hit) && i <= |nums|
    ensures Exec(p, 4 + i, sc.nr, sc) == Some(if HitFrom(nums, i, sc.nr) then hit else miss)
    decreases |nums| - i
  {
    var n := |nums|;
    if i == n {
      assert p[4 + n] == Ret(miss);
      assert !HitFrom(nums, n, sc.nr);
    } else {
      var checks := p[4..4 + n];
      assert p[4 + i] == checks[i] == JumpEq(nums[i], Uint8(n - i), 0);
      if nums[i] != sc.nr {
        ChecksCorrect(p, nums, miss, hit, sc, i + 1);
        assert HitFrom(nums, i, sc.nr) <==> HitFrom(nums, i + 1, sc.nr);
      } else if n - i <= 255 {
        assert Uint8(n - i) == n - i;
        assert Exec(p, 5 + n, sc.nr, sc) == Some(hit);
      } else {
        var next := i + 1 + Uint8(n - i);
        WrappedJump(n, i);
        ChecksCorrect(p, nums, miss, hit, sc, next);
        assert HitFrom(nums, i, sc.nr) <==> HitFrom(nums, next, sc.nr);
      }
    }
  }

  lemma FilterCorrect(p: Program, nums: seq<uint32>, miss: uint32, hit: uint32, sc: Syscall)
    requires IsFilter(p, nums, miss, hit)
    ensures Verdict(p, sc) == Some(
      if sc.arch != AUDIT_ARCH_X86_64 then RET_KILL_PROCESS else if sc.nr in Effective(nums) then hit else miss)
  {
    assert p[0] == PROLOGUE[0] && p[1] == PROLOGUE[1] && p[2] == PROLOGUE[2] && p[3] == PROLOGUE[3];
    assert Verdict(p, sc) == Exec(p, 1, sc.arch, sc);
    if sc.arch != AUDIT_ARCH_X86_64 {
      assert Exec(p, 1, sc.arch, sc) == Exec(p, 2, sc.arch, sc) == Some(RET_KILL_PROCESS);
    } else {
      assert Exec(p, 1, sc.arch, sc) == Exec(p, 3, sc.arch, sc) == Exec(p, 4, sc.nr, sc);
      ChecksCorrect(p, nums, miss, hit, sc, 0);
      EffectiveHit(nums, sc.nr);
    }
  }

  lemma EffectiveHit(nums: seq<uint32>, nr: uint32)
    ensures HitFrom(nums, 0, nr) <==> nr in Effective(nums)
  {
  }

  /** The effective entries are those among the last 255. */
  lemma EffectiveExact(nums: seq<uint32>, nr: uint32)
    ensures nr in Effective(nums) <==> exists i :: 0 <= i < |nums| && |nums| - 255 <= i && nums[i] == nr
  {
    EffectiveHit(nums, nr);
    if i :| 0 <= i < |nums| && |nums| - 255 <= i && nums[i] == nr {
      assert 0 <= i < |nums| && |nums| - i <= 255 && nums[i] == nr;
    }
  }

  /** Up to 255 entries a compiled whitelist allows exactly its list. */
  lemma ShortWhitelistExact(p: Program, allowed: seq<uint32>, defaultAction: uint32, nr: uint32)
    requires IsFilter(p, allowed, defaultAction, RET_ALLOW) && defaultAction != RET_ALLOW && |allowed| <= 255
    ensures Verdict(p, Syscall(nr, AUDIT_ARCH_X86_64)) == Some(RET_ALLOW) <==> nr in allowed
  {
    FilterCorrect(p, allowed, defaultAction, RET_ALLOW, Syscall(nr, AUDIT_ARCH_X86_64));
  }

  /**
   Beyond 255 distinct entries the order matters, so the bound is exact: the
   first entry is refused where it stands and allowed when moved to the end.
   */
  lemma LongWhitelistOrderMatters(allowed: seq<uint32>, defaultAction: uint32)
    requires defaultAction != RET_ALLOW && |allowed| > 255
    requires forall i, j :: 0 <= i < j < |allowed| ==> allowed[i] != allowed[j]
    ensures var sc := Syscall(allowed[0], AUDIT_ARCH_X86_64);
      && WhitelistVerdict(allowed, defaultAction, sc) == defaultAction
      && WhitelistVerdict(allowed[1..] + [allowed[0]], defaultAction, sc) == RET_ALLOW
  {
    var moved := allowed[1..] + [allowed[0]];
    var e := Effective(moved);
    assert e[|e| - 1] == allowed[0];
  }

  /** For a list without duplicates, a compiled whitelist allows exactly its list if and only if it fits 255 entries. */
  lemma WhitelistExact(p: Program, allowed: seq<uint32>, defaultAction: uint32)
    requires IsFilter(p, allowed, defaultAction, RET_ALLOW) && defaultAction != RET_ALLOW
    requires forall i, j :: 0 <= i < j < |allowed| ==> allowed[i] != allowed[j]
    ensures (forall nr :: Verdict(p, Syscall(nr, AUDIT_ARCH_X86_64)) == Some(RET_ALLOW) <==> nr in allowed)
      <==> |allowed| <= 255
  {
    if |allowed| <= 255 {
      forall nr: uint32
        ensures Verdict(p, Syscall(nr, AUDIT_ARCH_X86_64)) == Some(RET_ALLOW) <==> nr in allowed
      {
        ShortWhitelistExact(p, allowed, defaultAction, nr);
      }
    } else {
      FilterCorrect(p, allowed, defaultAction, RET_ALLOW, Syscall(allowed[0], AUDIT_ARCH_X86_64));
      LongWhitelistOrderMatters(allowed, defaultAction);
    }
  }

  // ---------------------------------------------------------- names to numbers

  /** The number a profile name stands for, if the table knows it. */
  function Number(table: map<string, uint32>, name: string): Option<uint32> {
    var key := ToLower(TrimSpace(name));
    if key in table then Some(table[key]) else None
  }

  ghost function Numbers(table: map<string, uint32>, names: seq<string>): (ns: seq<Option<uint32>>)
    ensures |ns| == |names| && forall i :: 0 <= i < |names| ==> ns[i] == Number(table, names[i])
  {
    seq(|names|, i requires 0 <= i < |names| => Number(table, names[i]))
  }

  /** A number is resolved exactly when the table has it under some trimmed, lower-case name. */
  lemma ResolvedFrom(table: map<string, uint32>, names: seq<string>, x: uint32)
    ensures Some(x) in Numbers(table, names) <==>
      exists i :: 0 <= i < |names| && ToLower(TrimSpace(names[i])) in table && table[ToLower(TrimSpace(names[i]))] == x
  {
    var ns := Numbers(table, names);
    if Some(x) in ns {
      var i :| 0 <= i < |ns| && ns[i] == Some(x);
      assert ToLower(TrimSpace(names[i])) in table;
    }
    if i :| 0 <= i < |names| && ToLower(TrimSpace(names[i])) in table && table[ToLower(TrimSpace(names[i]))] == x {
      assert ns[i] == Some(x);
    }
  }

  /** `nums` lists, without repetition, exactly the numbers present in `resolved`. */
  ghost predicate Collected(resolved: seq<Option<uint32>>, nums: seq<uint32>) {
    && (forall x :: x in nums <==> Some(x) in resolved)
    && (forall i, j :: 0 <= i < j < |nums| ==> nums[i] != nums[j])
  }

  lemma CollectedSnoc(resolved: seq<Option<uint32>>, nums: seq<uint32>, num: Option<uint32>)
    requires Collected(resolved, nums)
    ensures Collected(resolved + [num], if num.Some? && num.value !in nums then nums + [num.value] else nums)
  {
  }

  /** compileFromNames: unknown names are dropped, repeated numbers kept once. */
  method CompileFromNames(table: map<string, uint32>, names: seq<string>, defaultAction: uint32)
    returns (p: Program, nums: seq<uint32>)
    ensures IsFilter(p, nums, defaultAction, RET_ALLOW)
    ensures Collected(Numbers(table, names), nums)
    ensures forall x :: x in nums <==>
      exists i :: 0 <= i < |names| && ToLower(TrimSpace(names[i])) in table && table[ToLower(TrimSpace(names[i]))] == x
  {
    ghost var resolved := Numbers(table, names);
    nums := [];
    var seen: set<uint32> := {};
    for k := 0 to |names|
      invariant forall x :: x in seen <==> x in nums
      invariant Collected(resolved[..k], nums)
    {
      var num := Number(table, names[k]);
      assert resolved[..k + 1] == resolved[..k] + [num];
      CollectedSnoc(resolved[..k], nums, num);
      if num.Some? && num.value !in seen {
        seen := seen + {num.value};
        nums := nums + [num.value];
      }
    }
    assert resolved[..|names|] == resolved;
    forall x: uint32
      ensures x in nums <==>
        exists i :: 0 <= i < |names| && ToLower(TrimSpace(names[i])) in table && table[ToLower(TrimSpace(names[i]))] == x
    {
      ResolvedFrom(table, names, x);
    }
    p := CompileWhitelistFilter(nums, defaultAction);
  }

  /**
   Filters compiled from two name lists with the same resolvable numbers, at
   most 255 of them, give every system call the same verdict.
   */
  lemma VerdictsDependOnSet(p: Program, q: Program, a: seq<uint32>, b: seq<uint32>,
                            ra: seq<Option<uint32>>, rb: seq<Option<uint32>>, defaultAction: uint32, sc: Syscall)
    requires IsFilter(p, a, defaultAction, RET_ALLOW) && Collected(ra, a)
    requires IsFilter(q, b, defaultAction, RET_ALLOW) && Collected(rb, b)
    requires forall x :: Some(x) in ra <==> Some(x) in rb
    requires |a| <= 255
    ensures Verdict(p, sc) == Verdict(q, sc)
  {
    SameSize(a, b);
    FilterCorrect(p, a, defaultAction, RET_ALLOW, sc);
    FilterCorrect(q, b, defaultAction, RET_ALLOW, sc);
  }

  ghost function Members(a: seq<uint32>): set<uint32> {
    set x | x in a
  }

  /** Duplicate-free lists with the same members have the same length. */
  lemma {:induction false} SameSize(a: seq<uint32>, b: seq<uint32>)
    requires forall x :: x in a <==> x in b
    requires forall i, j :: 0 <= i < j < |a| ==> a[i] != a[j]
    requires forall i, j :: 0 <= i < j < |b| ==> b[i] != b[j]
    ensures |a| == |b|
  {
    CountDistinct(a);
    CountDistinct(b);
    assert Members(a) == Members(b);
  }

  lemma {:induction false} CountDistinct(a: seq<uint32>)
    requires forall i, j :: 0 <= i < j < |a| ==> a[i] != a[j]
    ensures |Members(a)| == |a|
    decreases |a|
  {
    if a != [] {
      var n := |a| - 1;
      CountDistinct(a[..n]);
      assert a == a[..n] + [a[n]];
      assert a[n] !in a[..n];
      assert Members(a) == Members(a[..n]) + {a[n]};
    }
  }

  /** The blacklist is the dual of the whitelist over the same list: it denies what the other allows. */
  lemma BlacklistIsDual(w: Program, b: Program, nums: seq<uint32>, action: uint32, nr: uint32)
    requires action != RET_ALLOW
    requires IsFilter(w, nums, action, RET_ALLOW) && IsFilter(b, nums, RET_ALLOW, action)
    ensures var sc := Syscall(nr, AUDIT_ARCH_X86_64);
      && (Verdict(w, sc) == Some(RET_ALLOW) <==> Verdict(b, sc) == Some(action))
      && (Verdict(w, sc) == Some(action) <==> Verdict(b, sc) == Some(RET_ALLOW))
  {
    FilterCorrect(w, nums, action, RET_ALLOW, Syscall(nr, AUDIT_ARCH_X86_64));
    FilterCorrect(b, nums, RET_ALLOW, action, Syscall(nr, AUDIT_ARCH_X86_64));
  }
}
