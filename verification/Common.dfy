/** Small shared vocabulary of the model. */
module Common {

  datatype Option<+T> = None | Some(value: T)

  /** One byte of a file, a stream or an archive. */
  type byte = b: int | 0 <= b < 256

  type bytes = seq<byte>

  type uint32 = n: int | 0 <= n < 0x1_0000_0000

  /** A path as its components. */
  type Path = seq<string>

  function Pow2(n: nat): (p: nat)
    ensures p >= 1
  {
    if n == 0 then 1 else 2 * Pow2(n - 1)
  }

  const TWO_32: nat := 0x1_0000_0000

  /** The Go conversion `uint32(n)` of a non-negative integer. */
  function Uint32(n: nat): (r: nat)
    ensures r < 0x1_0000_0000
    ensures n < 0x1_0000_0000 ==> r == n
  {
    n % 0x1_0000_0000
  }

  lemma {:induction false} SubsetSize<T>(a: set<T>, b: set<T>)
    requires a <= b
    ensures |a| <= |b|
    decreases a
  {
    if a != {} {
      var x :| x in a;
      SubsetSize(a - {x}, b - {x});
    }
  }

  lemma TakeNext<T>(s: seq<T>, k: nat)
    requires k < |s|
    ensures s[..k] + [s[k]] == s[..k + 1] && s[..k + 1][..k] == s[..k]
  {
  }

  lemma TakeEnds<T>(s: seq<T>)
    ensures s[..0] == [] && s[..|s|] == s
  {
  }
}
