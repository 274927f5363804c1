/**
 * Fixed-width integers and the big-endian byte order of the chunk layout
 * (section 2.1 of RFC 2083 puts every integer wider than a byte in network byte order),
 * and the in-memory reader that stands for `BufReader::read_exact`.
 */
module Wire {
  import opened Wrappers

  newtype u8 = x: int | 0 <= x < 0x100
  newtype u32 = x: int | 0 <= x < 0x1_0000_0000

  /** `std::io::Error` as `read_exact` raises it on a short buffer. */
  datatype ReadError = UnexpectedEof

  /** `u32::to_be_bytes`: most significant byte first. */
  function ToBeBytes(x: u32): (b: seq<u8>)
    ensures |b| == 4
  {
    [(x / 0x100_0000) as u8, (x / 0x1_0000 % 0x100) as u8, (x / 0x100 % 0x100) as u8, (x % 0x100) as u8]
  }

  /** `u32::from_be_bytes`. */
  function FromBeBytes(b: seq<u8>): (x: u32)
    requires |b| == 4
    ensures (x as int) / 0x100_0000 == b[0] as int
  {
    (b[0] as int * 0x100_0000 + b[1] as int * 0x1_0000 + b[2] as int * 0x100 + b[3] as int) as u32
  }

  lemma FromToBeBytes(x: u32)
    ensures FromBeBytes(ToBeBytes(x)) == x
  {
    var n := x as int;
    assert n == (n / 0x100_0000) * 0x100_0000 + (n / 0x1_0000 % 0x100) * 0x1_0000 + n % 0x1_0000;
    assert n % 0x1_0000 == (n / 0x100 % 0x100) * 0x100 + n % 0x100;
  }

  lemma ToFromBeBytes(b: seq<u8>)
    requires |b| == 4
    ensures ToBeBytes(FromBeBytes(b)) == b
  {
    var x := FromBeBytes(b) as int;
    var lo := b[1] as int * 0x1_0000 + b[2] as int * 0x100 + b[3] as int;
    assert x == b[0] as int * 0x100_0000 + lo && 0 <= lo < 0x100_0000;
    assert x / 0x1_0000 == b[0] as int * 0x100 + b[1] as int;
    assert x / 0x100 == b[0] as int * 0x1_0000 + b[1] as int * 0x100 + b[2] as int;
  }

  /** The most significant bit of the first byte is the top bit of the word. */
  lemma TopBitOfBeBytes(b: seq<u8>)
    requires |b| == 4
    ensures (b[0] >= 0x80) <==> (FromBeBytes(b) as int >= 0x8000_0000)
  {
  }

  /**
   * `read_exact` of `n` bytes from a reader positioned at `pos` over
   * `input`: the next `n` bytes, or an I/O error when fewer remain.
   */
  function ReadExact(input: seq<u8>, pos: nat, n: nat): (r: Result<seq<u8>, ReadError>)
    ensures r.Ok? <==> pos + n <= |input|
    ensures r.Ok? ==> |r.value| == n && r.value == input[pos..pos + n]
  {
    if pos + n <= |input| then Ok(input[pos..pos + n]) else Err(UnexpectedEof)
  }

  /** Regrouping a concatenation; stated once so that proofs need not rediscover it. */
  lemma AppendAssoc<T>(a: seq<T>, b: seq<T>, c: seq<T>)
    ensures a + b + c == a + (b + c)
  {
  }

  /** A non-empty sequence is its head in front of its tail. */
  lemma HeadTail<T>(s: seq<T>)
    requires s != []
    ensures s == [s[0]] + s[1..]
  {
  }

  /** The two parts of a concatenation are recovered by slicing at the seam. */
  lemma SplitAppend<T>(a: seq<T>, b: seq<T>)
    ensures (a + b)[..|a|] == a && (a + b)[|a|..] == b
  {
  }

  /** The empty sequence is a unit of concatenation. */
  lemma AppendEmpty<T>(s: seq<T>)
    ensures [] + s == s && s + [] == s
  {
  }

  /** Cutting a sequence at `k` and gluing the halves back gives it again. */
  lemma TakeDrop<T>(s: seq<T>, k: nat)
    requires k <= |s|
    ensures s[..k] + s[k..] == s
  {
  }

  /** A prefix cut into four consecutive slices. */
  lemma Slices4<T>(s: seq<T>, i: nat, j: nat, k: nat, l: nat)
    requires i <= j <= k <= l <= |s|
    ensures s[..l] == s[..i] + s[i..j] + s[j..k] + s[k..l]
  {
  }

  /** Slicing inside the first operand of a concatenation ignores the second. */
  lemma SliceOfAppend<T>(s: seq<T>, rest: seq<T>, i: nat, j: nat)
    requires i <= j <= |s|
    ensures (s + rest)[i..j] == s[i..j] && (s + rest)[..j] == s[..j]
  {
  }

  /** The four fields of a record laid out back to back, followed by anything, are found at their offsets. */
  lemma Fields<T>(a: seq<T>, b: seq<T>, c: seq<T>, d: seq<T>, rest: seq<T>)
    ensures var s := a + b + c + d + rest;
            && s[..|a|] == a
            && s[|a|..|a| + |b|] == b
            && s[|a| + |b|..|a| + |b| + |c|] == c
            && s[|a| + |b| + |c|..|a| + |b| + |c| + |d|] == d
            && s[..|a| + |b| + |c| + |d|] == a + b + c + d
  {
  }

  /** The four fields of a record laid out back to back are found at their offsets. */
  lemma Layout<T>(a: seq<T>, b: seq<T>, c: seq<T>, d: seq<T>)
    ensures var s := a + b + c + d;
            && s[..|a|] == a
            && s[|a|..|a| + |b|] == b
            && s[|a| + |b|..|a| + |b| + |c|] == c
            && s[|a| + |b| + |c|..] == d
            && s[|a|..] == b + c + d
  {
  }

  /** The tail of a concatenation whose first operand is not empty. */
  lemma TailOfAppend<T>(a: seq<T>, b: seq<T>)
    requires a != []
    ensures (a + b)[0] == a[0] && (a + b)[1..] == a[1..] + b
  {
  }
}
