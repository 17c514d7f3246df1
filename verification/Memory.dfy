/** Bytes, optional results, and the C library's block operations on one buffer. */
module Memory {

  type byte = b: int | 0 <= b < 256

  datatype Option<+T> = None | Some(value: T)

  function Zeros(n: nat): (z: seq<byte>)
    ensures |z| == n && forall k :: 0 <= k < n ==> z[k] == 0
  {
    seq(n, i => 0)
  }

  lemma Assoc<T>(a: seq<T>, b: seq<T>, c: seq<T>)
    ensures (a + b) + c == a + (b + c)
  {
  }

  lemma PlusNothing<T>(a: seq<T>)
    ensures [] + a == a && a + [] == a
  {
  }

  /** The tail of a concatenation whose left part is not empty. */
  lemma TailOfSum<T>(a: seq<T>, b: seq<T>)
    requires a != []
    ensures (a + b)[0] == a[0] && (a + b)[1..] == a[1..] + b
  {
  }

  /** A prefix cut off a concatenation. */
  lemma DropPrefix<T>(a: seq<T>, b: seq<T>)
    ensures (a + b)[..|a|] == a && (a + b)[|a|..] == b
  {
  }

  lemma SuffixHead<T>(s: seq<T>, k: nat, x: T, rest: seq<T>)
    requires k <= |s| && s[k..] == [x] + rest
    ensures k < |s| && s[k] == x && s[k + 1..] == rest
  {
    assert |s[k..]| == 1 + |rest|;
    assert s[k] == s[k..][0];
    assert s[k + 1..] == s[k..][1..];
  }

  lemma SuffixSuffix<T>(s: seq<T>, i: nat, j: nat)
    requires i + j <= |s|
    ensures s[i..][j..] == s[i + j..]
  {
  }

  // ---------- blocks in a sequence ----------

  /** The block b stands at offset off of s. */
  predicate At(s: seq<byte>, off: nat, b: seq<byte>) {
    off + |b| <= |s| && s[off..off + |b|] == b
  }

  /** The sequence s with the block b written at offset dst. */
  function Put(s: seq<byte>, dst: nat, b: seq<byte>): (t: seq<byte>)
    requires dst + |b| <= |s|
    ensures |t| == |s|
  {
    s[..dst] + b + s[dst + |b|..]
  }

  lemma AtByte(s: seq<byte>, off: nat, b: seq<byte>, j: nat)
    requires At(s, off, b) && j < |b|
    ensures off + j < |s| && s[off + j] == b[j]
  {
    assert s[off..off + |b|][j] == s[off + j];
  }

  lemma AtPart(s: seq<byte>, off: nat, b: seq<byte>, lo: nat, hi: nat)
    requires At(s, off, b) && lo <= hi <= |b|
    ensures At(s, off + lo, b[lo..hi])
  {
    var w := s[off..off + |b|];
    forall j | 0 <= j < hi - lo ensures w[lo..hi][j] == s[off + lo..off + hi][j] {
    }
    assert w[lo..hi] == s[off + lo..off + hi];
  }

  lemma AtSplit(s: seq<byte>, off: nat, a: seq<byte>, b: seq<byte>)
    ensures At(s, off, a + b) <==> At(s, off, a) && At(s, off + |a|, b)
  {
    if At(s, off, a + b) {
      AtPart(s, off, a + b, 0, |a|);
      AtPart(s, off, a + b, |a|, |a + b|);
      assert (a + b)[0..|a|] == a && (a + b)[|a|..|a + b|] == b;
    }
  }

  lemma SliceSlice(s: seq<byte>, a: nat, b: nat, lo: nat, hi: nat)
    requires a <= b <= |s| && lo <= hi <= b - a
    ensures s[a..b][lo..hi] == s[a + lo..a + hi]
  {
    AtPart(s, a, s[a..b], lo, hi);
  }

  /** Writing a block puts it there and leaves every block beside it. */
  lemma AtPut(s: seq<byte>, dst: nat, b: seq<byte>, off: nat, x: seq<byte>)
    requires dst + |b| <= |s|
    ensures At(Put(s, dst, b), dst, b)
    ensures off + |x| <= dst || dst + |b| <= off ==> (At(s, off, x) <==> At(Put(s, dst, b), off, x))
  {
    var t := Put(s, dst, b);
    if off + |x| <= dst {
      assert s[off..off + |x|] == t[off..off + |x|];
    } else if dst + |b| <= off && off + |x| <= |s| {
      assert s[off..off + |x|] == t[off..off + |x|];
    }
  }

  /** Writing over the middle of three blocks. */
  lemma PutMiddle(x: seq<byte>, y: seq<byte>, z: seq<byte>, b: seq<byte>)
    requires |b| == |y|
    ensures Put(x + y + z, |x|, b) == x + b + z
  {
  }

  /** Writing and reading inside a block that was itself just written. */
  lemma PutInside(s: seq<byte>, dst: nat, b: seq<byte>, j: nat, c: seq<byte>)
    requires dst + |b| <= |s| && j + |c| <= |b|
    ensures Put(Put(s, dst, b), dst + j, c) == Put(s, dst, Put(b, j, c))
  {
    var l, r := Put(Put(s, dst, b), dst + j, c), Put(s, dst, Put(b, j, c));
    forall i | 0 <= i < |s| ensures l[i] == r[i] {
    }
  }

  lemma SliceInside(s: seq<byte>, dst: nat, b: seq<byte>, lo: nat, hi: nat)
    requires dst + |b| <= |s| && lo <= hi <= |b|
    ensures Put(s, dst, b)[dst + lo..dst + hi] == b[lo..hi]
  {
    AtPut(s, dst, b, 0, []);
    AtPart(Put(s, dst, b), dst, b, lo, hi);
  }

  lemma UpdateInside(s: seq<byte>, dst: nat, b: seq<byte>, j: nat, v: byte)
    requires dst + |b| <= |s| && j < |b|
    ensures Put(s, dst, b)[dst + j] == b[j]
    ensures Put(s, dst, b)[dst + j := v] == Put(s, dst, b[j := v])
  {
  }

  lemma PutSame(s: seq<byte>, dst: nat, b: seq<byte>)
    requires At(s, dst, b)
    ensures Put(s, dst, b) == s
  {
  }

  /** Two sequences of one length that hold the same two halves are equal. */
  lemma AtWhole(s: seq<byte>, a: seq<byte>)
    requires |s| == |a| && At(s, 0, a)
    ensures s == a
  {
    assert s[0..|a|] == s;
  }

  // ---------- the C library's block operations ----------

  /** `memmove`: the source and destination ranges may overlap. */
  method Memmove(buf: array<byte>, dst: nat, src: nat, n: nat)
    requires dst + n <= buf.Length && src + n <= buf.Length
    modifies buf
    ensures buf[..] == Put(old(buf[..]), dst, old(buf[..])[src..src + n])
  {
    forall k | 0 <= k < n {
      buf[dst + k] := buf[src + k];
    }
  }

  /** `memset` of a range to zero. */
  method Memzero(buf: array<byte>, dst: nat, n: nat)
    requires dst + n <= buf.Length
    modifies buf
    ensures buf[..] == Put(old(buf[..]), dst, Zeros(n))
  {
    forall k | 0 <= k < n {
      buf[dst + k] := 0;
    }
  }

  /** `memcpy` from a block that does not overlap the buffer. */
  method Memcpy(buf: array<byte>, dst: nat, src: seq<byte>)
    requires dst + |src| <= buf.Length
    modifies buf
    ensures buf[..] == Put(old(buf[..]), dst, src)
  {
    forall k | 0 <= k < |src| {
      buf[dst + k] := src[k];
    }
  }
}
