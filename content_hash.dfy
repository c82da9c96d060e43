/**
 * The block-wise content hash the upload driver computes: SHA-256 of every
 * non-empty block, the digests concatenated in read order, and SHA-256 of
 * that concatenation, reported as a lower-case hex string (`hexdigest()`).
 * SHA-256 itself is not modelled: it is the parameter `sha`.
 */
module ContentHashing {
  import opened Bytes

  /** The bytes fed to the outer hash object: `sha(block)` for each non-empty block, in order. */
  function Digests(sha: seq<byte> -> seq<byte>, blocks: seq<seq<byte>>): seq<byte>
  {
    if blocks == [] then []
    else (if blocks[0] == [] then [] else sha(blocks[0])) + Digests(sha, blocks[1..])
  }

  /** The finalized outer digest, `content_hash.digest()`. */
  function ContentHash(sha: seq<byte> -> seq<byte>, blocks: seq<seq<byte>>): seq<byte>
  {
    sha(Digests(sha, blocks))
  }

  /** The blocks that hold at least one byte, in their original order. */
  function NonEmptyBlocks(blocks: seq<seq<byte>>): (r: seq<seq<byte>>)
    ensures AllNonEmpty(r) && |r| <= |blocks|
  {
    if blocks == [] then []
    else (if blocks[0] == [] then [] else [blocks[0]]) + NonEmptyBlocks(blocks[1..])
  }

  /** The digests of a concatenation of block lists are the concatenated digests. */
  lemma {:induction false} DigestsConcat(sha: seq<byte> -> seq<byte>, a: seq<seq<byte>>, b: seq<seq<byte>>)
    ensures Digests(sha, a + b) == Digests(sha, a) + Digests(sha, b)
  {
    if a == [] {
      assert a + b == b;
    } else {
      assert (a + b)[0] == a[0];
      assert (a + b)[1..] == a[1..] + b;
      DigestsConcat(sha, a[1..], b);
    }
  }

  /** Reading one more block adds its digest, and an empty block adds nothing. */
  lemma DigestsSnoc(sha: seq<byte> -> seq<byte>, blocks: seq<seq<byte>>, data: seq<byte>)
    ensures Digests(sha, blocks + [data]) ==
              Digests(sha, blocks) + (if data == [] then [] else sha(data))
  {
    DigestsConcat(sha, blocks, [data]);
    assert [data][1..] == [];
  }

  /** The empty read that ends the upload loop leaves the content hash as it was. */
  lemma ContentHashIgnoresFinalEmpty(sha: seq<byte> -> seq<byte>, blocks: seq<seq<byte>>)
    ensures ContentHash(sha, blocks + [[]]) == ContentHash(sha, blocks)
  {
    DigestsSnoc(sha, blocks, []);
    assert Digests(sha, blocks) + [] == Digests(sha, blocks);
  }

  /** The per-block digests of `blocks`, one list entry per block, in read order. */
  function BlockDigests(sha: seq<byte> -> seq<byte>, blocks: seq<seq<byte>>): (r: seq<seq<byte>>)
    ensures |r| == |blocks| && forall i :: 0 <= i < |blocks| ==> r[i] == sha(blocks[i])
  {
    seq(|blocks|, i requires 0 <= i < |blocks| => sha(blocks[i]))
  }

  /** On non-empty blocks, the outer hash input is the concatenation of the block digests. */
  lemma {:induction false} DigestsAsFlatten(sha: seq<byte> -> seq<byte>, blocks: seq<seq<byte>>)
    requires AllNonEmpty(blocks)
    ensures Digests(sha, blocks) == Flatten(BlockDigests(sha, blocks))
  {
    if blocks != [] {
      DigestsAsFlatten(sha, blocks[1..]);
      assert BlockDigests(sha, blocks)[1..] == BlockDigests(sha, blocks[1..]);
    }
  }

  /**
   * Empty blocks do not count: the hash input is the plain concatenation of
   * the digests of the non-empty blocks, in read order.
   */
  lemma {:induction false} DigestsOfNonEmpty(sha: seq<byte> -> seq<byte>, blocks: seq<seq<byte>>)
    ensures Digests(sha, blocks) == Digests(sha, NonEmptyBlocks(blocks))
    ensures Digests(sha, blocks) == Flatten(BlockDigests(sha, NonEmptyBlocks(blocks)))
    ensures |NonEmptyBlocks(blocks)| > 0 ==>
              Digests(sha, blocks) == sha(NonEmptyBlocks(blocks)[0]) + Digests(sha, NonEmptyBlocks(blocks)[1..])
  {
    if blocks != [] {
      DigestsOfNonEmpty(sha, blocks[1..]);
      var head := if blocks[0] == [] then [] else [blocks[0]];
      DigestsConcat(sha, head, NonEmptyBlocks(blocks[1..]));
      assert Digests(sha, head) == (if blocks[0] == [] then [] else sha(blocks[0]));
    }
    DigestsAsFlatten(sha, NonEmptyBlocks(blocks));
  }

  const HexChars: string := "0123456789abcdef"

  /** `hexdigest()`: two lower-case hex digits per byte, high nibble first. */
  function HexDigest(d: seq<byte>): (s: string)
    ensures |s| == 2 * |d|
  {
    if d == [] then ""
    else [HexChars[d[0] as int / 16], HexChars[d[0] as int % 16]] + HexDigest(d[1..])
  }

  /** The value of one lower-case hex digit. */
  function NibbleValue(c: char): (v: Option<nat>)
    ensures v.Some? ==> v.value < 16 && HexChars[v.value] == c
  {
    if '0' <= c <= '9' then Some(c as int - '0' as int)
    else if 'a' <= c <= 'f' then Some(c as int - 'a' as int + 10)
    else None
  }

  /** The inverse of HexDigest on lower-case hex strings of even length. */
  function HexDecode(s: string): Option<seq<byte>>
    decreases |s|
  {
    if s == [] then Some([])
    else if |s| < 2 then None
    else match (NibbleValue(s[0]), NibbleValue(s[1]), HexDecode(s[2..]))
      case (Some(hi), Some(lo), Some(rest)) => Some([(hi * 16 + lo) as byte] + rest)
      case _ => None
  }

  lemma NibbleOfHexChar(v: nat)
    requires v < 16
    ensures NibbleValue(HexChars[v]) == Some(v)
  {
  }

  /** Both hex digits of a byte decode to its two nibbles, which give back the byte. */
  lemma ByteNibbles(x: byte)
    ensures NibbleValue(HexChars[x as int / 16]) == Some(x as int / 16)
    ensures NibbleValue(HexChars[x as int % 16]) == Some(x as int % 16)
  {
    NibbleOfHexChar(x as int / 16);
    NibbleOfHexChar(x as int % 16);
  }

  /** The hex digits of one byte followed by the digits of the rest. */
  lemma HexDigestCons(d: seq<byte>)
    requires d != []
    ensures HexDigest(d) == [HexChars[d[0] as int / 16], HexChars[d[0] as int % 16]] + HexDigest(d[1..])
  {
  }

  /** Two hex digits in front of a decodable string decode to one more byte in front. */
  lemma HexDecodeCons(c0: char, c1: char, rest: string, x: byte, tail: seq<byte>)
    requires NibbleValue(c0) == Some(x as int / 16) && NibbleValue(c1) == Some(x as int % 16)
    requires HexDecode(rest) == Some(tail)
    ensures HexDecode([c0, c1] + rest) == Some([x] + tail)
  {
    var s := [c0, c1] + rest;
    assert s[0] == c0 && s[1] == c1 && s[2..] == rest;
    assert ((x as int / 16) * 16 + x as int % 16) as byte == x;
  }

  /** Decoding a hex digest gives back the digest. */
  lemma {:induction false} HexRoundTrip(d: seq<byte>)
    ensures HexDecode(HexDigest(d)) == Some(d)
  {
    if d != [] {
      HexDigestCons(d);
      ByteNibbles(d[0]);
      HexRoundTrip(d[1..]);
      HexDecodeCons(HexChars[d[0] as int / 16], HexChars[d[0] as int % 16], HexDigest(d[1..]), d[0], d[1..]);
      assert [d[0]] + d[1..] == d;
    }
  }

  /** Comparing hex digests compares the digests themselves. */
  lemma HexDigestInjective(a: seq<byte>, b: seq<byte>)
    ensures HexDigest(a) == HexDigest(b) <==> a == b
  {
    if HexDigest(a) == HexDigest(b) {
      HexRoundTrip(a);
      HexRoundTrip(b);
    }
  }
}
