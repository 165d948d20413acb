/** Small definitions shared by the models. */
module Common {

  datatype Option<+T> = None | Some(value: T)

  /** The error conditions the modelled operations report.  `AssertFailed` stands for a failed assertion,
      which aborts the process in every build, and `Overflow` for an unsigned subtraction below zero,
      which aborts a build with overflow checks and wraps around in a release build. */
  datatype Error = ENOENT | EINVAL | EBADF | ENOTDIR | EOPNOTSUPP | InvalidImage | MemOverflow | VolatileSlice |
                   Handler | AssertFailed | Overflow

  datatype Result<+T> = Ok(value: T) | Err(error: Error) {
    predicate IsFailure() { Err? }

    function PropagateFailure<U>(): Result<U>
      requires Err?
    {
      Err(error)
    }

    function Extract(): T
      requires Ok?
    {
      value
    }
  }

  const U32_LIMIT: nat := 0x1_0000_0000
  const U64_LIMIT: nat := 0x1_0000_0000_0000_0000

  /** A cast `as u32`. */
  function AsU32(x: nat): (y: nat)
    ensures y < U32_LIMIT && y <= x && (x < U32_LIMIT ==> y == x)
  {
    x % U32_LIMIT
  }

  function Min(a: int, b: int): int { if a < b then a else b }

  /** `nydus_utils::div_round_up`. */
  function DivRoundUp(n: nat, d: nat): nat
    requires d > 0
  {
    (n + d - 1) / d
  }

  lemma QuotientUnique(x: nat, d: nat, q: nat, r: nat)
    requires d > 0 && x == q * d + r && r < d
    ensures x / d == q && x % d == r
  {
    var k := x / d - q;
    Distribute(x / d, q, d);
    assert k * d == r - x % d;
    if k != 0 { AtLeastOnce(k, d); }
  }

  lemma Distribute(a: int, b: int, d: int)
    ensures (a - b) * d == a * d - b * d
  {
  }

  lemma AtLeastOnce(k: int, d: nat)
    requires k != 0
    ensures k * d >= d || k * d + d <= 0
  {
    if k > 0 {
      Distribute(k, 1, d);
    } else {
      Distribute(k, -1, d);
    }
  }

  lemma MulOrder(a: int, b: int, d: nat)
    requires a <= b
    ensures a * d <= b * d
  {
    Distribute(b, a, d);
    if a < b { AtLeastOnce(b - a, d); }
  }

  /** `div_round_up` is the least number of `d`-sized pieces that holds `n`. */
  lemma RoundUpCovers(n: nat, d: nat)
    requires d > 0
    ensures n <= DivRoundUp(n, d) * d < n + d
    ensures forall x: nat | x < n :: x / d < DivRoundUp(n, d)
  {
    var q := DivRoundUp(n, d);
    assert n + d - 1 == q * d + (n + d - 1) % d;
    forall x: nat | x < n ensures x / d < q {
      if x / d >= q { MulOrder(q, x / d, d); }
    }
  }

  lemma DivOrder(a: nat, b: nat, d: nat)
    requires a <= b && d > 0
    ensures a / d <= b / d
  {
    if b / d < a / d { MulOrder(b / d + 1, a / d, d); }
  }

  /** `q` pieces of size `d` hold `n`, and one less does not. */
  ghost predicate PieceCount(q: nat, d: nat, n: nat) {
    n <= q * d && (q > 0 ==> (q - 1) * d < n)
  }

  lemma RoundUpIff(n: nat, d: nat, q: nat)
    requires d > 0
    ensures DivRoundUp(n, d) == q <==> PieceCount(q, d, n)
  {
    var r := DivRoundUp(n, d);
    RoundUpCovers(n, d);
    Distribute(r, 1, d);
    if q < r {
      MulOrder(q, r - 1, d);
    } else if q > r {
      MulOrder(r, q - 1, d);
    }
  }

  lemma RoundUpIsLastPlusOne(n: nat, d: nat)
    requires n > 0 && d > 0
    ensures DivRoundUp(n, d) == (n - 1) / d + 1
  {
    var q := (n - 1) / d;
    assert n - 1 == q * d + (n - 1) % d;
    assert (q + 1) * d == q * d + d;
    QuotientUnique(n + d - 1, d, q + 1, (n - 1) % d);
  }

  lemma InPiece(x: nat, d: nat)
    requires d > 0
    ensures x / d * d <= x < x / d * d + d
  {
    assert x == x / d * d + x % d;
  }

  lemma SliceOfSlice<T>(s: seq<T>, o: nat, n: nat, i: nat, j: nat)
    requires i <= j <= n && o + n <= |s|
    ensures s[o..o + n][i..j] == s[o + i..o + j]
  {
    var a, b := s[o..o + n][i..j], s[o + i..o + j];
    assert |a| == |b|;
    forall k | 0 <= k < |a| ensures a[k] == b[k] {}
  }

  lemma Regroup<T>(a: seq<T>, b: seq<T>, c: seq<T>)
    ensures a + b + c == a + (b + c)
  {
  }

  lemma SliceBehind<T>(a: seq<T>, b: seq<T>, i: nat, j: nat)
    requires i <= j <= |b|
    ensures (a + b)[|a| + i..|a| + j] == b[i..j]
  {
  }

  lemma SliceJoin<T>(s: seq<T>, i: nat, j: nat, k: nat)
    requires i <= j <= k <= |s|
    ensures s[i..k] == s[i..j] + s[j..k]
  {
  }
}
