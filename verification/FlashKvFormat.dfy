/** The flash format from outside: which keys count as text, what a small image looks like, and what is not
    taken for an image (RFC 3629, section 3, for the text). */
module FlashKvFormats {
  import opened Bytes
  import opened Wrappers
  import opened FlashKvs
  import opened FlashKvStores

  // ----- text -----

  /** A Unicode scalar value. */
  predicate Scalar(c: nat) {
    c < 0xD800 || 0xE000 <= c <= 0x10FFFF
  }

  function Encoded(c: nat): seq<byte>
    requires Scalar(c)
  {
    if c < 0x80 then [c]
    else if c < 0x800 then [0xC0 + c / 64, 0x80 + c % 64]
    else if c < 0x1_0000 then [0xE0 + c / 4096, 0x80 + c / 64 % 64, 0x80 + c % 64]
    else [0xF0 + c / 0x4_0000, 0x80 + c / 4096 % 64, 0x80 + c / 64 % 64, 0x80 + c % 64]
  }

  ghost predicate Scalars(cs: seq<nat>) {
    forall c :: c in cs ==> Scalar(c)
  }

  function EncodedAll(cs: seq<nat>): seq<byte>
    requires Scalars(cs)
  {
    if cs == [] then [] else
      assert cs[0] in cs;
      Encoded(cs[0]) + EncodedAll(cs[1..])
  }

  /** The scalar value of the character at `i`. */
  function ScalarAt(b: seq<byte>, i: nat, hi: nat): nat
    requires i < hi <= |b| && CharLen(b, i, hi) > 0
  {
    match CharLen(b, i, hi)
    case 1 => b[i]
    case 2 => Two(b[i], b[i + 1])
    case 3 => Three(b[i], b[i + 1], b[i + 2])
    case _ => Four(b[i], b[i + 1], b[i + 2], b[i + 3])
  }

  function Two(h: int, x: int): nat
    requires 0xC0 <= h && 0x80 <= x
  {
    64 * (h - 0xC0) + (x - 0x80)
  }

  function Three(h: int, x: int, y: int): nat
    requires 0xE0 <= h && 0x80 <= x && 0x80 <= y
  {
    64 * (64 * (h - 0xE0) + (x - 0x80)) + (y - 0x80)
  }

  function Four(h: int, x: int, y: int, z: int): nat
    requires 0xF0 <= h && 0x80 <= x && 0x80 <= y && 0x80 <= z
  {
    64 * (64 * (64 * (h - 0xF0) + (x - 0x80)) + (y - 0x80)) + (z - 0x80)
  }

  lemma {:induction false} Sextet(a: nat, x: nat)
    requires x < 64
    ensures (64 * a + x) / 64 == a && (64 * a + x) % 64 == x
  {
  }

  lemma {:induction false} By4096(c: nat)
    ensures c / 4096 == c / 64 / 64
  {
  }

  lemma {:induction false} By262144(c: nat)
    ensures c / 0x4_0000 == c / 64 / 64 / 64
  {
    By4096(c);
    assert c / 0x4_0000 == c / 4096 / 64;
  }

  lemma {:induction false} TwoEncoded(h: byte, x: byte)
    requires 0xC2 <= h <= 0xDF && 0x80 <= x <= 0xBF
    ensures Scalar(Two(h, x)) && Encoded(Two(h, x)) == [h, x]
  {
    Sextet(h - 0xC0, x - 0x80);
  }

  lemma {:induction false} ThreeEncoded(h: byte, x: byte, y: byte)
    requires 0xE0 <= h <= 0xEF && 0x80 <= x <= 0xBF && 0x80 <= y <= 0xBF
    requires (h != 0xE0 || x >= 0xA0) && (h != 0xED || x <= 0x9F)
    ensures Scalar(Three(h, x, y)) && Encoded(Three(h, x, y)) == [h, x, y]
  {
    var (a, c) := (64 * (h - 0xE0) + (x - 0x80), Three(h, x, y));
    Sextet(h - 0xE0, x - 0x80);
    Sextet(a, y - 0x80);
    By4096(c);
  }

  lemma {:induction false} FourEncoded(h: byte, x: byte, y: byte, z: byte)
    requires 0xF0 <= h <= 0xF4 && 0x80 <= x <= 0xBF && 0x80 <= y <= 0xBF && 0x80 <= z <= 0xBF
    requires (h != 0xF0 || x >= 0x90) && (h != 0xF4 || x <= 0x8F)
    ensures Scalar(Four(h, x, y, z)) && Encoded(Four(h, x, y, z)) == [h, x, y, z]
  {
    var a := 64 * (h - 0xF0) + (x - 0x80);
    var (d, c) := (64 * a + (y - 0x80), Four(h, x, y, z));
    Sextet(h - 0xF0, x - 0x80);
    Sextet(a, y - 0x80);
    Sextet(d, z - 0x80);
    By4096(c);
    By262144(c);
  }

  lemma {:induction false} CharIsScalar(b: seq<byte>, i: nat, hi: nat)
    requires i < hi <= |b| && CharLen(b, i, hi) > 0
    ensures Scalar(ScalarAt(b, i, hi)) && b[i..i + CharLen(b, i, hi)] == Encoded(ScalarAt(b, i, hi))
  {
    var n := CharLen(b, i, hi);
    if n == 2 {
      TwoEncoded(b[i], b[i + 1]);
    } else if n == 3 {
      ThreeEncoded(b[i], b[i + 1], b[i + 2]);
    } else if n == 4 {
      FourEncoded(b[i], b[i + 1], b[i + 2], b[i + 3]);
    }
  }

  lemma {:induction false} ScalarIsChar(c: nat, rest: seq<byte>)
    requires Scalar(c)
    ensures var b := Encoded(c) + rest; CharLen(b, 0, |b|) == |Encoded(c)|
  {
  }

  /** Every text is the encoding of some scalar values. */
  lemma {:induction false} TextIsEncoded(b: seq<byte>, i: nat, hi: nat) returns (cs: seq<nat>)
    requires i <= hi <= |b| && Utf8In(b, i, hi)
    ensures Scalars(cs) && EncodedAll(cs) == b[i..hi]
    decreases hi - i
  {
    if i == hi {
      cs := [];
    } else {
      var n := CharLen(b, i, hi);
      CharIsScalar(b, i, hi);
      var rest := TextIsEncoded(b, i + n, hi);
      cs := [ScalarAt(b, i, hi)] + rest;
      assert cs[1..] == rest && b[i..hi] == b[i..i + n] + b[i + n..hi];
    }
  }

  lemma {:induction false} EncodedIsText(cs: seq<nat>)
    requires Scalars(cs)
    ensures Utf8(EncodedAll(cs))
  {
    if cs != [] {
      assert cs[0] in cs;
      var (first, rest) := (Encoded(cs[0]), EncodedAll(cs[1..]));
      EncodedIsText(cs[1..]);
      ScalarIsChar(cs[0], rest);
      var b := first + rest;
      Utf8Same(rest, 0, |rest|, b, |first|);
    }
  }

  /** A key counts as text if and only if it encodes a sequence of scalar values. */
  lemma {:induction false} TextIffEncoded(b: seq<byte>)
    ensures Utf8(b) <==> exists cs :: Scalars(cs) && EncodedAll(cs) == b
  {
    if Utf8(b) {
      var cs := TextIsEncoded(b, 0, |b|);
      assert b[0..|b|] == b;
    }
    if cs :| Scalars(cs) && EncodedAll(cs) == b {
      EncodedIsText(cs);
    }
  }

  // ----- the image -----

  /** The map from "abc" to "1" and from "b" to "23456": the magic "WCKV", the version and the number of entries,
      then each entry's two lengths, its key and its value, each padded to a multiple of four, all numbers with
      the low byte first. */
  lemma {:induction false} ImageOfTwo()
    ensures Encode([Entry([97, 98, 99], [49]), Entry([98], [50, 51, 52, 53, 54])]) ==
      [0x57, 0x43, 0x4B, 0x56, 1, 0, 0, 0, 2, 0, 0, 0] +
      [3, 0, 0, 0, 1, 0, 0, 0, 97, 98, 99, 0, 49, 0, 0, 0] +
      [1, 0, 0, 0, 5, 0, 0, 0, 98, 0, 0, 0, 50, 51, 52, 53, 54, 0, 0, 0]
  {
    var (x, y) := (Entry([97, 98, 99], [49]), Entry([98], [50, 51, 52, 53, 54]));
    FirstOfTwo();
    SecondOfTwo();
    TwoEntries(x, y);
    HeaderOfTwo();
  }

  /** Put in the other order, "abc" still comes before "b". */
  lemma {:induction false} PutInOrder()
    ensures var (x, y) := (Entry([97, 98, 99], [49]), Entry([98], [50, 51, 52, 53, 54]));
      Put(Put([], y.key, y.value), x.key, x.value) == [x, y]
  {
    var (x, y) := (Entry([97, 98, 99], [49]), Entry([98], [50, 51, 52, 53, 54]));
    assert Put([], y.key, y.value) == [y];
    assert Less(x.key, y.key);
  }

  lemma {:induction false} HeaderOfTwo()
    ensures Header(2) == [0x57, 0x43, 0x4B, 0x56, 1, 0, 0, 0, 2, 0, 0, 0]
  {
    assert LE32(1) == [1, 0, 0, 0] && LE32(2) == [2, 0, 0, 0];
  }

  lemma {:induction false} TwoEntries(x: Entry, y: Entry)
    ensures EncodeAll([x, y]) == EncodeEntry(x) + EncodeEntry(y)
  {
    assert [x, y][1..] == [y] && [y][1..] == [];
    assert EncodeAll([y]) == EncodeEntry(y) + EncodeAll([]);
  }

  lemma {:induction false} FirstOfTwo()
    ensures EncodeEntry(Entry([97, 98, 99], [49])) == [3, 0, 0, 0, 1, 0, 0, 0, 97, 98, 99, 0, 49, 0, 0, 0]
  {
    assert LE32(3) == [3, 0, 0, 0] && LE32(1) == [1, 0, 0, 0];
    assert Padded([97, 98, 99]) == [97, 98, 99, 0] && Padded([49]) == [49, 0, 0, 0];
  }

  lemma {:induction false} SecondOfTwo()
    ensures EncodeEntry(Entry([98], [50, 51, 52, 53, 54])) ==
      [1, 0, 0, 0, 5, 0, 0, 0, 98, 0, 0, 0, 50, 51, 52, 53, 54, 0, 0, 0]
  {
    assert LE32(1) == [1, 0, 0, 0] && LE32(5) == [5, 0, 0, 0];
    assert Padded([98]) == [98, 0, 0, 0] && Padded([50, 51, 52, 53, 54]) == [50, 51, 52, 53, 54, 0, 0, 0];
  }

  lemma {:induction false} HeaderIs(region: seq<byte>)
    requires |region| >= 8 && region[0..4] == MAGIC && U32At(region, 4) == VERSION
    ensures region[..8] == [0x57, 0x43, 0x4B, 0x56, 1, 0, 0, 0]
  {
    assert region[4] == 1 && region[5] == 0 && region[6] == 0 && region[7] == 0;
    assert region[..8] == region[0..4] + [region[4], region[5], region[6], region[7]];
  }

  /** A region that does not start with the magic and version 1 boots as an empty store. */
  lemma {:induction false} OtherHeadersAreEmpty(region: seq<byte>)
    requires |region| == REGION_LEN && region[..8] != [0x57, 0x43, 0x4B, 0x56, 1, 0, 0, 0]
    ensures BootCache(region) == []
  {
    if region[0..4] == MAGIC && U32At(region, 4) == VERSION {
      HeaderIs(region);
    }
  }
}
