/** The base64 codec of the agent keys (section 4 of RFC 4648), over bytes. */
module Base64 {
  import opened Wrappers

  type Byte = bv8

  const PAD: Byte := 61

  /** The character of a six-bit value. */
  function EncodeChar(u: Byte): Byte {
    if u < 26 then 65 + u
    else if u < 52 then 97 + (u - 26)
    else if u < 62 then 48 + (u - 52)
    else if u == 62 then 43
    else 47
  }

  function DecodeChar(c: Byte): Byte {
    if 65 <= c <= 90 then c - 65
    else if 97 <= c <= 122 then c - 97 + 26
    else if 48 <= c <= 57 then c - 48 + 52
    else if c == 43 then 62
    else 63
  }

  predicate IsBase64(c: Byte) {
    65 <= c <= 90 || 97 <= c <= 122 || 48 <= c <= 57 || c == 43 || c == 47 || c == PAD
  }

  /** On six-bit values the two maps are inverse, and no character of the alphabet is the padding. */
  lemma CharRoundTrip(u: Byte)
    requires u < 64
    ensures DecodeChar(EncodeChar(u)) == u
    ensures IsBase64(EncodeChar(u)) && EncodeChar(u) != PAD && EncodeChar(u) != 0
  {
  }

  /** The four six-bit values of three bytes. */
  function First6(b1: Byte): Byte { b1 >> 2 }

  function Second6(b1: Byte, b2: Byte): Byte { ((b1 & 0x3) << 4) | (b2 >> 4) }

  function Third6(b2: Byte, b3: Byte): Byte { ((b2 & 0xf) << 2) | (b3 >> 6) }

  function Fourth6(b3: Byte): Byte { b3 & 0x3f }

  /** The three bytes of four six-bit values. */
  function First8(b1: Byte, b2: Byte): Byte { (b1 << 2) | (b2 >> 4) }

  function Second8(b2: Byte, b3: Byte): Byte { ((b2 & 0xf) << 4) | (b3 >> 2) }

  function Third8(b3: Byte, b4: Byte): Byte { ((b3 & 0x3) << 6) | b4 }

  /** The four characters of up to three bytes. */
  function Group(b: seq<Byte>): (g: seq<Byte>)
    requires 1 <= |b| <= 3
    ensures |g| == 4
  {
    var b1, b2, b3 := b[0], if |b| > 1 then b[1] else 0, if |b| > 2 then b[2] else 0;
    [ EncodeChar(First6(b1)),
      EncodeChar(Second6(b1, b2)),
      if |b| > 1 then EncodeChar(Third6(b2, b3)) else PAD,
      if |b| > 2 then EncodeChar(Fourth6(b3)) else PAD ]
  }

  /** The bytes of up to four characters; a missing character counts as the first of the alphabet. */
  function Ungroup(g: seq<Byte>): (b: seq<Byte>)
    requires 1 <= |g| <= 4
    ensures 1 <= |b| <= 3
  {
    var c1, c2 := g[0], if |g| > 1 then g[1] else 65;
    var c3, c4 := if |g| > 2 then g[2] else 65, if |g| > 3 then g[3] else 65;
    var b1, b2, b3, b4 := DecodeChar(c1), DecodeChar(c2), DecodeChar(c3), DecodeChar(c4);
    Bytes(c3, c4, b1, b2, b3, b4)
  }

  /** Padding in the third or fourth place leaves out a byte. */
  function Bytes(c3: Byte, c4: Byte, b1: Byte, b2: Byte, b3: Byte, b4: Byte): (b: seq<Byte>)
    ensures 1 <= |b| <= 3
  {
    [First8(b1, b2)] + (if c3 != PAD then [Second8(b2, b3)] else []) + (if c4 != PAD then [Third8(b3, b4)] else [])
  }

  function Encoded(s: seq<Byte>): seq<Byte> {
    if s == [] then []
    else if |s| <= 3 then Group(s)
    else Group(s[..3]) + Encoded(s[3..])
  }

  function Decoded(t: seq<Byte>): seq<Byte> {
    if t == [] then []
    else if |t| <= 4 then Ungroup(t)
    else Ungroup(t[..4]) + Decoded(t[4..])
  }

  /** The characters of the alphabet, in order. */
  function Filtered(t: seq<Byte>): (r: seq<Byte>)
    ensures |r| <= |t|
  {
    if t == [] then [] else (if IsBase64(t[0]) then [t[0]] else []) + Filtered(t[1..])
  }

  /** What a reader of a NUL-terminated text sees of these bytes. */
  function Text(s: seq<Byte>): seq<Byte> {
    if s == [] || s[0] == 0 then [] else [s[0]] + Text(s[1..])
  }

  lemma SixBits(b1: Byte, b2: Byte, b3: Byte)
    ensures First6(b1) < 64 && Second6(b1, b2) < 64 && Third6(b2, b3) < 64 && Fourth6(b3) < 64
  {
  }

  lemma ByteRoundTrip(b1: Byte, b2: Byte, b3: Byte)
    ensures First8(First6(b1), Second6(b1, b2)) == b1
    ensures Second8(Second6(b1, b2), Third6(b2, b3)) == b2
    ensures Third8(Third6(b2, b3), Fourth6(b3)) == b3
  {
  }

  lemma PadIsBase64()
    ensures IsBase64(PAD) && PAD != 0
  {
  }

  lemma GroupRoundTrip(b: seq<Byte>)
    requires 1 <= |b| <= 3
    ensures Ungroup(Group(b)) == b
    ensures forall i | 0 <= i < 4 :: IsBase64(Group(b)[i]) && Group(b)[i] != 0
  {
    hide EncodeChar, DecodeChar, IsBase64, First6, Second6, Third6, Fourth6, First8, Second8, Third8;
    var b1, b2, b3 := b[0], if |b| > 1 then b[1] else 0, if |b| > 2 then b[2] else 0;
    SixBits(b1, b2, b3);
    ByteRoundTrip(b1, b2, b3);
    CharRoundTrip(First6(b1));
    CharRoundTrip(Second6(b1, b2));
    CharRoundTrip(Third6(b2, b3));
    CharRoundTrip(Fourth6(b3));
    PadIsBase64();
  }

  /** Whole groups in front decode on their own. */
  lemma DecodedGroup(g: seq<Byte>, t: seq<Byte>)
    requires |g| == 4
    ensures Decoded(g + t) == Ungroup(g) + Decoded(t)
  {
    if t == [] {
      assert g + t == g;
    } else {
      assert (g + t)[..4] == g && (g + t)[4..] == t;
    }
  }

  lemma {:induction false} EncodedRoundTrip(s: seq<Byte>)
    ensures Decoded(Encoded(s)) == s
    ensures forall i | 0 <= i < |Encoded(s)| :: IsBase64(Encoded(s)[i]) && Encoded(s)[i] != 0
  {
    hide Group, Ungroup, IsBase64;
    if |s| > 3 {
      GroupRoundTrip(s[..3]);
      EncodedRoundTrip(s[3..]);
      DecodedGroup(Group(s[..3]), Encoded(s[3..]));
      assert s == s[..3] + s[3..];
    } else if s != [] {
      GroupRoundTrip(s);
    }
  }

  /** The characters of a text, and others between them. */
  lemma {:induction false} FilteredIsItself(t: seq<Byte>)
    requires forall i | 0 <= i < |t| :: IsBase64(t[i])
    ensures Filtered(t) == t
  {
    if t != [] {
      FilteredIsItself(t[1..]);
    }
  }

  lemma {:induction false} TextIsItself(s: seq<Byte>)
    ensures Text(s) == s <==> 0 !in s
  {
    if s != [] && s[0] != 0 {
      TextIsItself(s[1..]);
      assert s == [s[0]] + s[1..];
      assert Text(s) == s <==> Text(s[1..]) == s[1..] by {
        assert Text(s)[1..] == Text(s[1..]);
      }
    }
  }

  function EncodedLength(n: nat): nat {
    (n + 2) / 3 * 4
  }

  lemma LengthSteps(n: nat)
    ensures n > 3 ==> EncodedLength(n) == 4 + EncodedLength(n - 3)
    ensures 1 <= n <= 3 ==> EncodedLength(n) == 4
  {
  }

  /** The buffer of encode_base64 is long enough for the text and its end, and no byte shorter would do for
      every length. */
  lemma BufferIsTight(n: nat)
    ensures EncodedLength(n) + 1 <= n * 4 / 3 + 4
    ensures EncodedLength(n) + 1 == n * 4 / 3 + 4 <==> n % 3 == 1
  {
    var k := n / 3;
    assert n == 3 * k + n % 3;
    assert EncodedLength(n) == (if n % 3 == 0 then 4 * k else 4 * k + 4);
    assert n * 4 / 3 == 4 * k + n % 3 * 4 / 3;
  }

  lemma {:induction false} EncodedFits(s: seq<Byte>)
    ensures |Encoded(s)| == EncodedLength(|s|)
  {
    hide Group, EncodedLength;
    LengthSteps(|s|);
    if |s| > 3 {
      EncodedFits(s[3..]);
    } else if s == [] {
      assert EncodedLength(0) == 0 by { NoLength(); }
    }
  }

  lemma NoLength()
    ensures EncodedLength(0) == 0
  {
  }

  lemma {:induction false} DecodedFits(t: seq<Byte>)
    ensures |Decoded(t)| <= (|t| + 3) / 4 * 3
  {
    hide Ungroup;
    if |t| > 4 {
      DecodedFits(t[4..]);
    }
  }

  /** One round of encode_base64 at `i`: four characters go to `out` at `p`. */
  method EncodeGroup(src: seq<Byte>, i: nat, out: array<Byte>, p: nat)
    requires i < |src| && p + 4 <= out.Length
    modifies out
    ensures out[..p + 4] == old(out[..p]) + Group(src[i..Next(src, i)]) && out[p + 4..] == old(out[p + 4..])
  {
    hide EncodeChar, First6, Second6, Third6, Fourth6;
    var b1, b2: Byte, b3: Byte := src[i], 0, 0;
    if i + 1 < |src| {
      b2 := src[i + 1];
    }
    if i + 2 < |src| {
      b3 := src[i + 2];
    }
    out[p] := EncodeChar(First6(b1));
    out[p + 1] := EncodeChar(Second6(b1, b2));
    if i + 1 < |src| {
      out[p + 2] := EncodeChar(Third6(b2, b3));
    } else {
      out[p + 2] := PAD;
    }
    if i + 2 < |src| {
      out[p + 3] := EncodeChar(Fourth6(b3));
    } else {
      out[p + 3] := PAD;
    }
    ghost var b := src[i..Next(src, i)];
    assert b[0] == b1 && (|b| > 1 <==> i + 1 < |src|) && (|b| > 2 <==> i + 2 < |src|);
    assert b2 == (if |b| > 1 then b[1] else 0) && b3 == (if |b| > 2 then b[2] else 0);
    ghost var g := [out[p], out[p + 1], out[p + 2], out[p + 3]];
    assert g == Group(b);
    assert out[p..p + 4] == g;
    assert out[..p + 4] == out[..p] + out[p..p + 4];
  }

  /** encode_base64; `src` are the bytes it takes, all of a text when no size is given. The buffer is
      long enough, and the text in it is what `Encoded` says, with a NUL behind it. */
  method EncodeBase64(src: seq<Byte>) returns (out: array<Byte>)
    ensures fresh(out) && |Encoded(src)| < out.Length
    ensures out[..|Encoded(src)|] == Encoded(src) && Text(out[..]) == Encoded(src)
  {
    hide Group, Encoded;
    EncodedFits(src);
    BufferIsTight(|src|);
    out := new Byte[|src| * 4 / 3 + 4](_ => 0);
    var i, p := 0, 0;
    assert src[0..] == src;
    while i < |src|
      invariant i <= |src| && p + |Encoded(src[i..])| == |Encoded(src)| < out.Length
      invariant out[..p] + Encoded(src[i..]) == Encoded(src) && Zeros(out[p..])
      decreases |src| - i
    {
      EncodedStep(src, i);
      ghost var was, rest := out[..p], out[p..];
      assert rest[4..] == out[p + 4..];
      EncodeGroup(src, i, out, p);
      Regroup(was, Group(src[i..Next(src, i)]), Encoded(src[Next(src, i)..]));
      i := Next(src, i);
      p := p + 4;
    }
    NothingToEncode();
    assert src[i..] == [];
    EncodedHasNoNul(src);
    assert out[..] == out[..p] + out[p..];
    TextOfBuffer(out[..p], out[p..]);
  }

  /** Where the next group of three starts. */
  function Next(src: seq<Byte>, i: nat): nat
    requires i < |src|
  {
    if i + 3 < |src| then i + 3 else |src|
  }

  ghost predicate Zeros(s: seq<Byte>) {
    forall k | 0 <= k < |s| :: s[k] == 0
  }

  lemma Regroup(a: seq<Byte>, b: seq<Byte>, c: seq<Byte>)
    ensures a + (b + c) == (a + b) + c
  {
  }

  lemma NothingToEncode()
    ensures Encoded([]) == []
  {
  }

  lemma EncodedHasNoNul(s: seq<Byte>)
    ensures 0 !in Encoded(s)
  {
    EncodedRoundTrip(s);
  }

  lemma EncodedStep(src: seq<Byte>, i: nat)
    requires i < |src|
    ensures Encoded(src[i..]) == Group(src[i..Next(src, i)]) + Encoded(src[Next(src, i)..])
  {
    hide Group;
    if i + 3 < |src| {
      assert src[i..][..3] == src[i..i + 3] && src[i..][3..] == src[i + 3..];
    } else {
      assert src[i..|src|] == src[i..] && src[|src|..] == [];
    }
  }

  lemma {:induction false} TextOfBuffer(s: seq<Byte>, zeros: seq<Byte>)
    requires 0 !in s && zeros != [] && zeros[0] == 0
    ensures Text(s + zeros) == s
  {
    if s != [] {
      TextOfBuffer(s[1..], zeros);
      assert (s + zeros)[1..] == s[1..] + zeros;
    } else {
      assert s + zeros == zeros;
    }
  }

  lemma {:induction false} FilteredLast(t: seq<Byte>, c: Byte)
    ensures Filtered(t + [c]) == Filtered(t) + if IsBase64(c) then [c] else []
  {
    hide IsBase64;
    if t == [] {
      assert [] + [c] == [c] && [c][1..] == [];
    } else {
      FilteredLast(t[1..], c);
      assert (t + [c])[1..] == t[1..] + [c];
    }
  }

  /** The first loop of decode_base64: characters outside the alphabet are ignored. */
  method CopyAlphabet(src: seq<Byte>) returns (buf: array<Byte>, l: nat)
    ensures fresh(buf) && l <= buf.Length && l <= |src| && buf[..l] == Filtered(src)
  {
    hide IsBase64;
    buf := new Byte[|src| + 1];
    l := 0;
    for k := 0 to |src|
      invariant l <= k && buf[..l] == Filtered(src[..k])
    {
      FilteredLast(src[..k], src[k]);
      assert src[..k + 1] == src[..k] + [src[k]];
      if IsBase64(src[k]) {
        buf[l] := src[k];
        assert buf[..l + 1] == buf[..l] + [src[k]];
        l := l + 1;
      }
    }
    assert src[..|src|] == src;
  }

  /** One round of decode_base64 at `k`: one to three bytes go to `dest` at `p`. */
  method DecodeGroup(buf: seq<Byte>, k: nat, dest: array<Byte>, p: nat) returns (q: nat)
    requires k < |buf| && p + 3 <= dest.Length
    modifies dest
    ensures p <= q <= p + 3 && q <= dest.Length
    ensures dest[..q] == old(dest[..p]) + Ungroup(buf[k..NextQuad(buf, k)]) && dest[q..] == old(dest[q..])
  {
    hide DecodeChar, Bytes;
    var c1, c2: Byte, c3: Byte, c4: Byte := buf[k], 65, 65, 65;
    if k + 1 < |buf| {
      c2 := buf[k + 1];
    }
    if k + 2 < |buf| {
      c3 := buf[k + 2];
    }
    if k + 3 < |buf| {
      c4 := buf[k + 3];
    }
    var b1, b2, b3, b4 := DecodeChar(c1), DecodeChar(c2), DecodeChar(c3), DecodeChar(c4);
    ghost var g := buf[k..NextQuad(buf, k)];
    assert g[0] == c1 && c2 == (if |g| > 1 then g[1] else 65) && c3 == (if |g| > 2 then g[2] else 65)
      && c4 == (if |g| > 3 then g[3] else 65);
    SplicedArray(dest, p);
    q := WriteBytes(c3, c4, b1, b2, b3, b4, dest, p);
    assert old(dest[..])[q..] == old(dest[q..]);
  }

  method WriteBytes(c3: Byte, c4: Byte, b1: Byte, b2: Byte, b3: Byte, b4: Byte, dest: array<Byte>, p: nat)
    returns (q: nat)
    requires p + 3 <= dest.Length
    modifies dest
    ensures p <= q <= p + 3 && dest[..q] == old(dest[..])[..p] + Bytes(c3, c4, b1, b2, b3, b4)
    ensures dest[q..] == old(dest[..])[q..]
  {
    hide First8, Second8, Third8, Spliced;
    ghost var was := dest[..];
    ghost var one := [First8(b1, b2)];
    ghost var two := one + (if c3 != PAD then [Second8(b2, b3)] else []);
    ghost var three := two + (if c4 != PAD then [Third8(b3, b4)] else []);
    SplicedNone(was, p);
    Put(dest, p, First8(b1, b2), was, p, []);
    q := p + 1;
    assert [] + one == one && (c3 == PAD ==> two == one) && (c4 == PAD ==> three == two);
    if c3 != PAD {
      Put(dest, q, Second8(b2, b3), was, p, one);
      q := q + 1;
    }
    if c4 != PAD {
      Put(dest, q, Third8(b3, b4), was, p, two);
      q := q + 1;
    }
    SplicedIs(dest[..], was, p, three);
    SplicedArray(dest, q);
  }

  lemma SplicedArray(dest: array<Byte>, q: nat)
    requires q <= dest.Length
    ensures dest[..][..q] == dest[..q] && dest[..][q..] == dest[q..]
  {
  }

  /** `s` is `was` with these bytes written at `p`. */
  ghost predicate Spliced(s: seq<Byte>, was: seq<Byte>, p: nat, bytes: seq<Byte>) {
    p + |bytes| <= |was| && s == was[..p] + bytes + was[p + |bytes|..]
  }

  lemma SplicedNone(was: seq<Byte>, p: nat)
    requires p <= |was|
    ensures Spliced(was, was, p, [])
  {
  }

  lemma SplicedIs(s: seq<Byte>, was: seq<Byte>, p: nat, bytes: seq<Byte>)
    requires Spliced(s, was, p, bytes)
    ensures |s| == |was| && p + |bytes| <= |s|
    ensures s[..p + |bytes|] == was[..p] + bytes && s[p + |bytes|..] == was[p + |bytes|..]
  {
  }

  lemma SplicedMore(s: seq<Byte>, was: seq<Byte>, p: nat, bytes: seq<Byte>, b: Byte)
    requires Spliced(s, was, p, bytes) && p + |bytes| < |was|
    ensures |s| == |was| && Spliced(s[p + |bytes| := b], was, p, bytes + [b])
  {
    assert was[p + |bytes|..] == [was[p + |bytes|]] + was[p + |bytes| + 1..];
  }

  /** Writing one byte through the moving pointer. */
  method Put(dest: array<Byte>, q: nat, b: Byte, ghost was: seq<Byte>, ghost p: nat, ghost bytes: seq<Byte>)
    requires q == p + |bytes| < |was| == dest.Length && Spliced(dest[..], was, p, bytes)
    modifies dest
    ensures Spliced(dest[..], was, p, bytes + [b])
  {
    SplicedMore(dest[..], was, p, bytes, b);
    dest[q] := b;
    assert dest[..] == old(dest[..])[q := b];
  }

  function NextQuad(buf: seq<Byte>, k: nat): nat
    requires k < |buf|
  {
    if k + 4 < |buf| then k + 4 else |buf|
  }

  lemma DecodedStep(buf: seq<Byte>, k: nat)
    requires k < |buf|
    ensures Decoded(buf[k..]) == Ungroup(buf[k..NextQuad(buf, k)]) + Decoded(buf[NextQuad(buf, k)..])
  {
    hide Ungroup;
    if k + 4 < |buf| {
      assert buf[k..][..4] == buf[k..k + 4] && buf[k..][4..] == buf[k + 4..];
    } else {
      assert buf[k..|buf|] == buf[k..] && buf[|buf|..] == [];
    }
  }

  /** decode_base64 of a text: nothing for the empty one, else the bytes of `Decoded` with NULs behind them. */
  method DecodeBase64(src: seq<Byte>) returns (dest: array?<Byte>)
    ensures dest == null <==> src == []
    ensures dest != null ==> fresh(dest) && |Decoded(Filtered(src))| < dest.Length
    ensures dest != null ==>
      dest[..|Decoded(Filtered(src))|] == Decoded(Filtered(src)) && Zeros(dest[|Decoded(Filtered(src))|..])
  {
    if src == [] {
      return null;
    }
    hide Decoded, Filtered;
    var copied, l := CopyAlphabet(src);
    dest := DecodeQuads(copied[..l], |src| + 1 + 13);
  }

  /** The second loop of decode_base64, into a buffer of `size` bytes. */
  method DecodeQuads(buf: seq<Byte>, size: nat) returns (dest: array<Byte>)
    requires |buf| + 14 <= size
    ensures fresh(dest) && |Decoded(buf)| < dest.Length
    ensures dest[..|Decoded(buf)|] == Decoded(buf) && Zeros(dest[|Decoded(buf)|..])
  {
    hide Ungroup, Decoded;
    DecodedFits(buf);
    NothingToDecode();
    dest := new Byte[size](_ => 0);
    var k, p := 0, 0;
    assert buf[0..] == buf;
    while k < |buf|
      invariant k <= |buf| && p + |Decoded(buf[k..])| == |Decoded(buf)| && |Decoded(buf)| + 3 <= dest.Length
      invariant dest[..p] + Decoded(buf[k..]) == Decoded(buf) && Zeros(dest[p..])
    {
      DecodedStep(buf, k);
      ghost var was, rest := dest[..p], dest[p..];
      var q := DecodeGroup(buf, k, dest, p);
      assert dest[q..] == rest[q - p..];
      Regroup(was, Ungroup(buf[k..NextQuad(buf, k)]), Decoded(buf[NextQuad(buf, k)..]));
      k := NextQuad(buf, k);
      p := q;
    }
    assert buf[k..] == [];
  }

  lemma NothingToDecode()
    ensures Decoded([]) == []
  {
  }

  /** The round trip: however many characters outside the alphabet are put into the encoded text, what is
      read of the decoded buffer is the original, exactly when that has no NUL inside. */
  lemma DecodeEncode(s: seq<Byte>, noisy: seq<Byte>)
    requires Filtered(noisy) == Encoded(s)
    ensures Decoded(Filtered(noisy)) == s
    ensures Text(Decoded(Filtered(noisy))) == s <==> 0 !in s
    ensures s != [] ==> noisy != []
  {
    EncodedRoundTrip(s);
    TextIsItself(s);
  }

  /** Without noise. */
  lemma EncodedIsClean(s: seq<Byte>)
    ensures Filtered(Encoded(s)) == Encoded(s)
  {
    EncodedRoundTrip(s);
    FilteredIsItself(Encoded(s));
  }

  /** Putting one character outside the alphabet anywhere into a text leaves what is decoded. */
  lemma {:induction false} NoiseIsIgnored(a: seq<Byte>, c: Byte, b: seq<Byte>)
    requires !IsBase64(c)
    ensures Filtered(a + [c] + b) == Filtered(a + b)
  {
    if a == [] {
      assert a + [c] + b == [c] + b && ([c] + b)[1..] == b && a + b == b;
    } else {
      NoiseIsIgnored(a[1..], c, b);
      assert (a + [c] + b)[1..] == a[1..] + [c] + b && (a + b)[1..] == a[1..] + b;
    }
  }

  // -------------------------------------------------------------------------------------------
  // The encoding of the standard

  const ALPHABET := ("ABCDEFGHIJKLM" + "NOPQRSTUVWXYZ") + ("abcdefghijklm" + "nopqrstuvwxyz") + ("0123456789" + "+/")

  predicate Consecutive(s: string, first: int) {
    forall i | 0 <= i < |s| :: s[i] as int == first + i
  }

  lemma UpperCase()
    ensures Consecutive("ABCDEFGHIJKLM", 65) && Consecutive("NOPQRSTUVWXYZ", 78)
  {
  }

  lemma LowerCase()
    ensures Consecutive("abcdefghijklm", 97) && Consecutive("nopqrstuvwxyz", 110)
  {
  }

  lemma Digits()
    ensures Consecutive("0123456789", 48)
  {
  }

  function CharNumber(i: nat): int {
    if i < 26 then 65 + i
    else if i < 52 then 97 + i - 26
    else if i < 62 then 48 + i - 52
    else if i == 62 then 43 else 47
  }

  lemma AlphabetAt(i: nat)
    requires i < 64
    ensures |ALPHABET| == 64
    ensures ALPHABET[i] as int == CharNumber(i)
  {
    UpperCase();
    LowerCase();
    Digits();
    hide Consecutive;
    if i < 13 { assert ALPHABET[i] == "ABCDEFGHIJKLM"[i]; InRun("ABCDEFGHIJKLM", 65, i); }
    else if i < 26 { assert ALPHABET[i] == "NOPQRSTUVWXYZ"[i - 13]; InRun("NOPQRSTUVWXYZ", 78, i - 13); }
    else if i < 39 { assert ALPHABET[i] == "abcdefghijklm"[i - 26]; InRun("abcdefghijklm", 97, i - 26); }
    else if i < 52 { assert ALPHABET[i] == "nopqrstuvwxyz"[i - 39]; InRun("nopqrstuvwxyz", 110, i - 39); }
    else if i < 62 { assert ALPHABET[i] == "0123456789"[i - 52]; InRun("0123456789", 48, i - 52); }
    else { assert ALPHABET[i] == "+/"[i - 62]; }
  }

  lemma InRun(s: string, first: int, i: nat)
    requires Consecutive(s, first) && i < |s|
    ensures s[i] as int == first + i
  {
  }

  lemma CharAsNumber(u: Byte)
    requires u < 64
    ensures EncodeChar(u) as int == CharNumber(u as int)
  {
  }

  /** The characters are those of table 1 of RFC 4648, in that order. */
  lemma CharsOfTheStandard(u: Byte)
    requires u < 64
    ensures |ALPHABET| == 64 && EncodeChar(u) as int == ALPHABET[u as int] as int
  {
    hide EncodeChar;
    CharAsNumber(u);
    AlphabetAt(u as int);
  }

  /** The filter takes these characters and the padding, and no other. */
  lemma FilterOfTheStandard(c: Byte)
    ensures IsBase64(c) <==> c == 61 || exists u: Byte :: u < 64 && EncodeChar(u) == c
  {
    if IsBase64(c) && c != 61 {
      var u := DecodeChar(c);
      assert u < 64 && EncodeChar(u) == c;
    }
  }

  /** Four characters hold the bits of three bytes from the highest to the lowest; with less than three, zeros follow
      and the last characters are the padding. */
  lemma BitsInOrder(b: seq<Byte>)
    requires 1 <= |b| <= 3
    ensures var b1, b2, b3 := b[0], if |b| > 1 then b[1] else 0, if |b| > 2 then b[2] else 0;
      var bits := (b1 as bv24 << 16) | (b2 as bv24 << 8) | b3 as bv24;
      && Group(b)[0] == EncodeChar((bits >> 18) as Byte)
      && Group(b)[1] == EncodeChar(((bits >> 12) & 63) as Byte)
      && Group(b)[2] == (if |b| > 1 then EncodeChar(((bits >> 6) & 63) as Byte) else 61)
      && Group(b)[3] == (if |b| > 2 then EncodeChar((bits & 63) as Byte) else 61)
  {
  }
}
