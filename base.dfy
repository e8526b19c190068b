// Shared vocabulary of the pyIMX model: bytes, the exceptions the library raises,
// Result/Option wrappers, and the Python arithmetic and slicing the codecs rely on.
module Base {

  /** One octet of an image or command blob. */
  type byte = x: int | 0 <= x < 256

  type bytes = seq<byte>

  /**
   * The exceptions raised by the library, one constructor per kind.
   * Unparsed is the recoverable "tag does not match, try the next decoder"
   * signal; the others end the operation.
   */
  datatype Error =
    | Unparsed        // header.UnparsedException
    | Corrupted       // header.CorruptedException
    | ValueErr        // ValueError (validation, negative length or seek, int())
    | AssertErr       // AssertionError from an `assert` in a setter or append
    | StructErr       // struct.error: short buffer or a value that does not fit its field
    | TypeErr         // TypeError, e.g. len(None)
    | IndexErr        // IndexError, e.g. more image entries than slots
    | SyntaxErr       // SyntaxError raised by the DCD text parser
    | ZeroDivErr      // ZeroDivisionError
    | Raised(msg: string)  // a bare Exception carrying a message
    | NotModelled     // an input this model does not cover

  datatype Result<T> = Success(value: T) | Failure(error: Error)
  {
    predicate IsFailure() { Failure? }

    function PropagateFailure<U>(): Result<U>
      requires Failure?
    {
      Failure(error)
    }

    function Extract(): T
      requires Success?
    {
      value
    }
  }

  datatype Option<T> = None | Some(value: T)

  /** The outcome of a method that either completes or raises. */
  datatype Outcome = Pass | Fail(error: Error)
  {
    predicate IsFailure() { Fail? }

    function PropagateFailure(): Outcome
      requires Fail?
    {
      this
    }
  }

  function Min(a: int, b: int): int { if a <= b then a else b }

  function Max(a: int, b: int): int { if a >= b then a else b }

  /** Python's `data[lo:hi]` for a non-negative `lo`: both ends are clamped to the sequence. */
  function Slice<T>(s: seq<T>, lo: nat, hi: int): (r: seq<T>)
    ensures |r| == Max(0, Min(hi, |s|) - Min(lo, |s|))
    ensures lo <= hi <= |s| ==> r == s[lo..hi]
    ensures hi <= lo ==> r == []
    ensures forall k :: 0 <= k < |r| ==> r[k] == s[lo + k]
  {
    var a := Min(lo, |s|);
    var b := Max(a, Min(hi, |s|));
    s[a..b]
  }

  /** Python's `b'\x00' * n`: a non-positive count gives the empty string. */
  function Zeros(n: int): (r: bytes)
    ensures |r| == Max(0, n)
    ensures forall k :: 0 <= k < |r| ==> r[k] == 0
  {
    if n <= 0 then [] else Zeros(n - 1) + [0]
  }

  /** Python's floor division `a // b`. */
  function FloorDiv(a: int, b: int): (q: int)
    requires b != 0
    ensures b > 0 ==> b * q <= a < b * q + b
    ensures b < 0 ==> b * q + b < a <= b * q
  {
    if b > 0 || a % b == 0 then a / b else a / b - 1
  }

  /** Python's `a % b`: the remainder takes the sign of the divisor. */
  function FloorMod(a: int, b: int): (r: int)
    requires b != 0
    ensures a == b * FloorDiv(a, b) + r
    ensures b > 0 ==> 0 <= r < b
    ensures b < 0 ==> b < r <= 0
  {
    a - b * FloorDiv(a, b)
  }

  /** For a positive divisor Python's and Dafny's division agree. */
  lemma {:induction false} FloorDivPositive(a: int, b: int)
    requires b > 0
    ensures FloorDiv(a, b) == a / b && FloorMod(a, b) == a % b
  {
  }

  /** `acc` followed by a parsed tail, or the tail's failure. */
  function Prepend<T>(acc: seq<T>, r: Result<seq<T>>): Result<seq<T>>
  {
    if r.Success? then Success(acc + r.value) else r
  }

  lemma {:induction false} PrependNothing<T>(r: Result<seq<T>>)
    ensures Prepend([], r) == r
    ensures r.Success? ==> Prepend(r.value, Success([])) == r
  {
    if r.Success? {
      assert [] + r.value == r.value;
      assert r.value + [] == r.value;
    }
  }

  /** The head of a list put back in front of its parsed tail. */
  lemma {:induction false} PrependHead<T>(s: seq<T>, r: Result<seq<T>>)
    requires |s| > 0 && r == Success(s[1..])
    ensures Prepend([s[0]], r) == Success(s)
  {
    assert [s[0]] + s[1..] == s;
  }

  /** Moving one item from a parsed tail to the accumulator leaves the result unchanged. */
  lemma {:induction false} PrependSnoc<T>(acc: seq<T>, x: T, r: Result<seq<T>>)
    ensures Prepend(acc, Prepend([x], r)) == Prepend(acc + [x], r)
  {
    if r.Success? {
      assert acc + ([x] + r.value) == (acc + [x]) + r.value;
    }
  }

  lemma {:induction false} ConcatAssoc<T>(a: seq<T>, b: seq<T>, c: seq<T>)
    ensures a + (b + c) == (a + b) + c
  {
  }

  lemma {:induction false} ConcatEmpty<T>(a: seq<T>)
    ensures [] + a == a + [] == a
  {
  }

  /** The head and the tail of a list with one more item at its end. */
  lemma {:induction false} HeadOfSnoc<T>(s: seq<T>, x: T)
    ensures (s + [x])[0] == (if |s| == 0 then x else s[0])
    ensures (s + [x])[1..] == (if |s| == 0 then [] else s[1..] + [x])
  {
  }

  /** The concatenation of a sequence of strings, as `b''.join(parts)` or a loop of `+=`. */
  function Concat<T>(parts: seq<seq<T>>): (r: seq<T>)
    ensures |parts| == 0 ==> r == []
  {
    if |parts| == 0 then [] else Concat(parts[..|parts| - 1]) + parts[|parts| - 1]
  }

  lemma {:induction false} ConcatAppend<T>(parts: seq<seq<T>>, last: seq<T>)
    ensures Concat(parts + [last]) == Concat(parts) + last
  {
    assert (parts + [last])[..|parts|] == parts;
  }

  /** `j * z`, built up one stride at a time. */
  function Stride(z: nat, j: nat): nat
  {
    if j == 0 then 0 else Stride(z, j - 1) + z
  }

  lemma {:induction false} StrideIsProduct(z: nat, j: nat)
    ensures Stride(z, j) == j * z
  {
    if j > 0 {
      StrideIsProduct(z, j - 1);
      assert j * z == (j - 1) * z + z;
    }
  }

  /** Every part has length `z`. */
  predicate Uniform<T>(parts: seq<seq<T>>, z: nat)
  {
    forall k :: 0 <= k < |parts| ==> |parts[k]| == z
  }

  lemma {:induction false} ConcatUniformLength<T>(parts: seq<seq<T>>, z: nat)
    requires Uniform(parts, z)
    ensures |Concat(parts)| == Stride(z, |parts|)
  {
    if |parts| > 0 {
      ConcatUniformLength(parts[..|parts| - 1], z);
    }
  }

  /** Part `j` of a concatenation of parts of length `z` lies at `j * z`. */
  lemma {:induction false} ConcatUniformAt<T>(parts: seq<seq<T>>, z: nat, j: nat)
    requires Uniform(parts, z) && j < |parts|
    ensures Stride(z, j + 1) <= |Concat(parts)|
    ensures Concat(parts)[Stride(z, j)..Stride(z, j + 1)] == parts[j]
  {
    var n := |parts|;
    var front := parts[..n - 1];
    ConcatUniformLength(front, z);
    if j < n - 1 {
      ConcatUniformAt(front, z, j);
      assert (Concat(front) + parts[n - 1])[Stride(z, j)..Stride(z, j + 1)] == Concat(front)[Stride(z, j)..Stride(z, j + 1)];
    } else {
      assert (Concat(front) + parts[n - 1])[|Concat(front)|..] == parts[n - 1];
    }
  }

  /** A buffer holding a concatenation of parts of length `z` holds part `i` at `i * z`. */
  lemma {:induction false} PartAt<T>(data: seq<T>, at: nat, parts: seq<seq<T>>, z: nat, i: nat)
    requires Uniform(parts, z) && i < |parts|
    requires at + |Concat(parts)| <= |data| && data[at..at + |Concat(parts)|] == Concat(parts)
    ensures at + Stride(z, i) + |parts[i]| <= |data|
    ensures data[at + Stride(z, i)..at + Stride(z, i) + |parts[i]|] == parts[i]
  {
    ConcatUniformAt(parts, z, i);
    SubSlice(data, at, Concat(parts), Stride(z, i), Stride(z, i + 1));
  }

  /** A slice holding `a + b` holds `a` and then `b`. */
  lemma {:induction false} SplitSlice<T>(data: seq<T>, at: nat, a: seq<T>, b: seq<T>)
    requires at + |a| + |b| <= |data| && data[at..at + |a| + |b|] == a + b
    ensures data[at..at + |a|] == a
    ensures data[at + |a|..at + |a| + |b|] == b
  {
    var w := data[at..at + |a| + |b|];
    assert w[..|a|] == a && w[|a|..] == b;
    assert data[at..at + |a|] == w[..|a|];
    assert data[at + |a|..at + |a| + |b|] == w[|a|..];
  }

  /**
   * A slice holding `a` then `b`, read at `offset + index`: `a` is where the slice
   * starts and `b` where it moves on by `n`, the length of `a`.
   */
  lemma {:induction false} SplitAfter<T>(data: seq<T>, offset: nat, index: nat, whole: seq<T>, a: seq<T>, b: seq<T>, n: nat)
    requires whole == a + b && |a| == n
    requires offset + index + |whole| <= |data| && data[offset + index..offset + index + |whole|] == whole
    ensures offset + index + |a| <= |data| && data[offset + index..offset + index + |a|] == a
    ensures offset + (index + n) + |b| <= |data| && data[offset + (index + n)..offset + (index + n) + |b|] == b
  {
    SplitSlice(data, offset + index, a, b);
  }

  /** A slice whose start holds `a` and then `b`: each of them sits where it is expected. */
  lemma {:induction false} HeadAndNext<T>(data: seq<T>, at: nat, whole: seq<T>, a: seq<T>, b: seq<T>)
    requires at + |whole| <= |data| && data[at..at + |whole|] == whole
    requires |a| + |b| <= |whole| && whole[..|a|] == a && whole[|a|..|a| + |b|] == b
    ensures at + |a| <= |data| && data[at..at + |a|] == a
    ensures at + |a| + |b| <= |data| && data[at + |a|..at + |a| + |b|] == b
  {
    SubSlice(data, at, whole, 0, |a|);
    SubSlice(data, at, whole, |a|, |a| + |b|);
  }

  /** A piece of a slice is the slice of the piece. */
  lemma {:induction false} SubSlice<T>(data: seq<T>, at: nat, whole: seq<T>, lo: nat, hi: nat)
    requires at + |whole| <= |data| && data[at..at + |whole|] == whole && lo <= hi <= |whole|
    ensures data[at + lo..at + hi] == whole[lo..hi]
  {
    var a, b := data[at + lo..at + hi], whole[lo..hi];
    assert forall k :: 0 <= k < |a| ==> a[k] == data[at..at + |whole|][lo + k] == b[k];
  }

  /**
   * What a loop that mutates as it goes leaves behind: the items it appended before
   * it stopped, and whether it stopped by finishing or by raising.
   */
  datatype Partial<T> = Partial(items: seq<T>, end: Outcome)

  /** `acc` appended before the rest of the loop ran. */
  function After<T>(acc: seq<T>, p: Partial<T>): Partial<T>
  {
    Partial(acc + p.items, p.end)
  }

  lemma {:induction false} AfterNothing<T>(p: Partial<T>)
    ensures After([], p) == p
  {
    assert [] + p.items == p.items;
  }

  /** Moving one appended item from the rest of the loop to what it has already read. */
  lemma {:induction false} AfterSnoc<T>(acc: seq<T>, x: T, p: Partial<T>)
    ensures After(acc, Partial([x] + p.items, p.end)) == After(acc + [x], p)
  {
    assert acc + ([x] + p.items) == (acc + [x]) + p.items;
  }

  /** A loop that has stopped, with nothing left to read, has read all it was going to. */
  lemma {:induction false} AfterStop<T>(acc: seq<T>, before: seq<T>, whole: Partial<T>, e: Outcome)
    requires After(acc, Partial([], e)) == After(before, whole)
    ensures acc == before + whole.items && e == whole.end
  {
    assert acc + [] == acc;
  }
}
