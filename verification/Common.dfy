/** Types shared by every module: optional values, results, bytes and digests. */
module Common {

  datatype Option<+T> = None | Some(value: T) {
    predicate IsFailure() { None? }
    function PropagateFailure<U>(): Option<U> requires None? { None }
    function Extract(): T requires Some? { value }
  }

  datatype Result<+T, +E> = Ok(value: T) | Err(error: E)

  const TWO_64: int := 0x1_0000_0000_0000_0000
  const TWO_63: int := 0x8000_0000_0000_0000
  const TWO_32: int := 0x1_0000_0000

  type byte = x: int | 0 <= x < 256
  type uint64 = x: int | 0 <= x < TWO_64
  type int64 = x: int | -TWO_63 <= x < TWO_63

  type Bytes = seq<byte>

  /** A Go string: a byte sequence whose length fits a signed machine word. */
  type Str = s: Bytes | |s| < TWO_63

  /** A SHA-256 digest: always 32 bytes. The hash itself is a parameter of type `Bytes -> Digest`. */
  type Digest = d: Bytes | |d| == 32 witness seq(32, _ => 0)

  /** Two different byte strings with one digest: an explicit collision. */
  predicate Collides(sha: Bytes -> Digest, x: Bytes, y: Bytes) {
    x != y && sha(x) == sha(y)
  }

  /** Equal concatenations whose first parts have equal length split equally. */
  lemma SplitConcat<T>(a: seq<T>, b: seq<T>, c: seq<T>, d: seq<T>)
    requires a + b == c + d && |a| == |c|
    ensures a == c && b == d
  {
    assert a == (a + b)[..|a|] && c == (c + d)[..|c|];
    assert b == (a + b)[|a|..] && d == (c + d)[|c|..];
  }

  /** Appending to a sequence appends to each of its tails. */
  lemma TailConcat<T>(s: seq<T>, base: nat, more: seq<T>)
    requires base <= |s|
    ensures (s + more)[base..] == s[base..] + more
  {
  }
}
