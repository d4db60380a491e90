/** The machine words the source computes with: their moduli and the narrowing casts. */
module Words {

  /** A Win32 BYTE. */
  type byte = bv8

  const WORD_LIMIT: nat := 0x1_0000
  const DWORD_LIMIT: nat := 0x1_0000_0000
  /** One more than the largest int. */
  const INT_LIMIT: nat := 0x8000_0000

  /** The conversion to an unsigned type of m values: x wraps around until it is in range. */
  function Wrap(x: int, m: nat): (w: nat)
    requires m > 0
    ensures w < m
    decreases if x < 0 then m - x else x
  {
    if x < 0 then Wrap(x + m, m) else if x < m then x else Wrap(x - m, m)
  }

  /** Wrapping around is taking the remainder. */
  lemma {:induction false} WrapIsRemainder(x: int, m: nat)
    requires m > 0
    ensures Wrap(x, m) == x % m
    decreases if x < 0 then m - x else x
  {
    if x < 0 {
      WrapIsRemainder(x + m, m);
      RemainderOfSum(x, m);
    } else if x >= m {
      WrapIsRemainder(x - m, m);
      RemainderOfSum(x - m, m);
    }
  }

  lemma RemainderOfSum(x: int, m: nat)
    requires m > 0
    ensures (x + m) % m == x % m
  {
    DivisionOf(x, m);
    DivisionOf(x + m, m);
    var (q, r) := (x / m, (x + m) / m);
    RemainderIsUnique(r - q - 1, x % m, (x + m) % m, m);
  }

  lemma DivisionOf(x: int, m: nat)
    requires m > 0
    ensures x == (x / m) * m + x % m && 0 <= x % m < m
  {
  }

  lemma RemainderIsUnique(d: int, a: nat, b: nat, m: nat)
    requires a < m && b < m && d * m == a - b
    ensures a == b
  {
    MultipleIsFar(d, m);
  }

  lemma MultipleIsFar(d: int, m: nat)
    ensures d >= 1 ==> d * m >= m
    ensures d <= -1 ==> d * m + m <= 0
  {
    if d >= 1 {
      assert d * m == (d - 1) * m + m;
    } else if d <= -1 {
      assert d * m + m == (d + 1) * m;
    }
  }

  /** The conversion to WORD. */
  function Word(x: int): nat {
    Wrap(x, 0x1_0000)
  }

  /** The conversion to DWORD, and arithmetic in DWORDs. */
  function Dword(x: int): nat {
    Wrap(x, 0x1_0000_0000)
  }

  /** The conversion to SIZE_T, 64 bits wide. */
  function SizeT(x: int): nat {
    Wrap(x, 0x1_0000_0000_0000_0000)
  }

  /** Each cast takes the remainder by the number of values of its type. */
  lemma CastsAreRemainders(x: int)
    ensures Word(x) == x % 65536
    ensures Dword(x) == x % 4294967296
    ensures SizeT(x) == x % 18446744073709551616
  {
    WrapIsRemainder(x, 65536);
    WrapIsRemainder(x, 4294967296);
    WrapIsRemainder(x, 18446744073709551616);
    hide Wrap;
  }

  lemma DwordSmall(x: nat)
    requires x < DWORD_LIMIT
    ensures Dword(x) == x
  {
  }

  lemma DwordAdd(x: int, y: int)
    ensures Dword(Dword(x) + y) == Dword(x + y)
  {
    WrapIsRemainder(x, 0x1_0000_0000);
    WrapIsRemainder(Dword(x) + y, 0x1_0000_0000);
    WrapIsRemainder(x + y, 0x1_0000_0000);
    hide Wrap;
  }

  datatype Option<+T> = None | Some(value: T)

  function Min(a: int, b: int): int {
    if a <= b then a else b
  }

  /** memcpy_s into the middle of a buffer. */
  function Overwrite(dst: seq<byte>, at: nat, src: seq<byte>): (r: seq<byte>)
    requires at + |src| <= |dst|
    ensures |r| == |dst|
  {
    seq(|dst|, j requires 0 <= j < |dst| => if at <= j < at + |src| then src[j - at] else dst[j])
  }

  /** memcpy_s out of the middle of a buffer. */
  function CopyOf(src: seq<byte>, at: nat, n: nat): (r: seq<byte>)
    requires at + n <= |src|
    ensures |r| == n
  {
    seq(n, j requires 0 <= j < n => src[at + j])
  }

  lemma CopyIsSlice(src: seq<byte>, at: nat, n: nat)
    requires at + n <= |src|
    ensures CopyOf(src, at, n) == src[at..at + n]
  {
  }

  ghost predicate NoDup<T>(s: seq<T>) {
    forall i, j :: 0 <= i < j < |s| ==> s[i] != s[j]
  }
}
