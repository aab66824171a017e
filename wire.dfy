/** Bytes on the wire: big-endian unsigned integers as Node's Buffer writes
    and reads them (writeUInt8/16BE/32BE, readUInt8/16BE/32BE), and the
    clamping slice and in-place copy that the codec uses for payloads. */
module Wire {
  import opened Wrappers

  /** One octet of a Node Buffer. */
  type Byte = b: int | 0 <= b < 256

  /** 256 to the power w: one more than the largest value that fits in w bytes. */
  function Pow256(w: nat): (r: nat)
    ensures r >= 1
    ensures w > 0 ==> r >= 256
  {
    if w == 0 then 1 else 256 * Pow256(w - 1)
  }

  /** The low w bytes of v, most significant first (what writeUIntXBE stores). */
  function BigEndian(v: nat, w: nat): (r: seq<Byte>)
    ensures |r| == w
  {
    if w == 0 then [] else BigEndian(v / 256, w - 1) + [v % 256]
  }

  /** The unsigned number that the bytes s spell, most significant first
      (what readUIntXBE returns). */
  function FromBigEndian(s: seq<Byte>): nat
  {
    if s == [] then 0 else FromBigEndian(s[..|s| - 1]) * 256 + s[|s| - 1]
  }

  lemma {:induction false} FromBigEndianBound(s: seq<Byte>)
    ensures FromBigEndian(s) < Pow256(|s|)
  {
    if s != [] {
      FromBigEndianBound(s[..|s| - 1]);
    }
  }

  /** Reading back what was written gives the value, when it fits. */
  lemma {:induction false} BigEndianRoundTrip(v: nat, w: nat)
    requires v < Pow256(w)
    ensures FromBigEndian(BigEndian(v, w)) == v
  {
    if w > 0 {
      var s := BigEndian(v, w);
      assert s[..w - 1] == BigEndian(v / 256, w - 1);
      BigEndianRoundTrip(v / 256, w - 1);
    }
  }

  /** Writing back what was read gives the same bytes. */
  lemma {:induction false} FromBigEndianRoundTrip(s: seq<Byte>)
    ensures BigEndian(FromBigEndian(s), |s|) == s
  {
    if s != [] {
      var init := s[..|s| - 1];
      FromBigEndianRoundTrip(init);
      var v := FromBigEndian(s);
      assert v / 256 == FromBigEndian(init);
      assert v % 256 == s[|s| - 1];
      assert s == init + [s[|s| - 1]];
    }
  }

  /** Two values that fit in w bytes are equal exactly when their encodings are. */
  lemma BigEndianInjective(v: nat, u: nat, w: nat)
    requires v < Pow256(w) && u < Pow256(w)
    ensures BigEndian(v, w) == BigEndian(u, w) <==> v == u
  {
    if BigEndian(v, w) == BigEndian(u, w) {
      BigEndianRoundTrip(v, w);
      BigEndianRoundTrip(u, w);
    }
  }

  /** s with the bytes p stored from index o on, clipped at the end of s; this is
      how Buffer.copy and Buffer.write store a payload that may not fit. */
  function Overwrite(s: seq<Byte>, o: nat, p: seq<Byte>): (r: seq<Byte>)
    requires o <= |s|
    ensures |r| == |s|
    ensures forall i :: 0 <= i < |s| ==> r[i] == (if o <= i < o + |p| then p[i - o] else s[i])
  {
    var n := if |p| <= |s| - o then |p| else |s| - o;
    s[..o] + p[..n] + s[o + n..]
  }

  /** An index given to buf.slice: a negative one counts from the end, and
      the result is clamped to the buffer. */
  function SliceIndex(i: int, n: nat): (r: nat)
    ensures r <= n
    ensures 0 <= i <= n ==> r == i
  {
    if i < 0 then (if i + n < 0 then 0 else i + n) else if i > n then n else i
  }

  /** buf.slice(start, end): an absent end means the end of the buffer, and
      an end at or before the start gives no bytes. */
  function Slice(s: seq<Byte>, start: int, end: Option<int>): (r: seq<Byte>)
    ensures end.Some? && 0 <= start <= end.value <= |s| ==> r == s[start..end.value]
    ensures end.None? && 0 <= start <= |s| ==> r == s[start..]
    ensures start >= |s| ==> r == []
  {
    var b := SliceIndex(start, |s|);
    var e := match end
      case None => |s|
      case Some(x) => SliceIndex(x, |s|);
    if e <= b then [] else s[b..e]
  }

  /** n zero bytes: a fresh Buffer.alloc(n). */
  function Zeros(n: nat): (r: seq<Byte>)
    ensures |r| == n && forall i :: 0 <= i < n ==> r[i] == 0
  {
    seq(n, _ => 0)
  }

  /** Concatenation regroups freely. */
  lemma AppendAssoc(a: seq<Byte>, b: seq<Byte>, c: seq<Byte>)
    ensures a + (b + c) == (a + b) + c
  {
  }

  /** The middle part of a concatenation is found after the first. */
  lemma MiddleSlice(pre: seq<Byte>, e: seq<Byte>, post: seq<Byte>)
    ensures (pre + e + post)[|pre|..|pre| + |e|] == e
  {
  }

  /** Nothing before a sequence leaves it as it is. */
  lemma EmptyPrefix(s: seq<Byte>, post: seq<Byte>)
    ensures s + post == [] + s + post
  {
  }

  /** Three parts seen as an empty prefix, the first, and the other two. */
  lemma Regroup(a: seq<Byte>, b: seq<Byte>, c: seq<Byte>)
    ensures a + b + c == [] + a + (b + c)
  {
  }

  /** A header written at the start of a fresh buffer with room for a body,
      then the body written right after it, fill the buffer with both. */
  lemma HeaderThenBody(h: seq<Byte>, p: seq<Byte>, size: nat)
    requires size == |h| + |p|
    ensures Overwrite(Overwrite(Zeros(size), 0, h), |h|, p) == h + p
    ensures p == [] ==> Overwrite(Zeros(size), 0, h) == h + p
  {
    var b := Overwrite(Zeros(size), 0, h);
    assert forall i :: 0 <= i < |h| ==> b[i] == h[i];
    assert Overwrite(b, |h|, p) == h + p;
    if p == [] {
      assert b == h + p;
    }
  }
}
