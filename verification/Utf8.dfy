/**
 The UTF-8 arithmetic of compositor/native/src/text_input_handler.c: how many bytes
 around the cursor a "delete n units" request of the Android IME covers. Text is the
 sequence of bytes before the terminating NUL; the C bit masks are written as ranges
 and remainders ((c & 0xE0) == 0xC0 is 0xC0 <= c < 0xE0, c & 0x3F is c % 0x40).
 */
module Utf8 {
  import opened Common

  /** A Unicode scalar value (section 3 of RFC 3629 excludes the surrogates). */
  type Scalar = cp: int | 0 <= cp < 0xD800 || 0xE000 <= cp <= 0x10FFFF

  /** The encoding table of section 3 of RFC 3629. */
  function Encode(cp: Scalar): (bs: seq<byte>)
    ensures 1 <= |bs| <= 4
  {
    if cp < 0x80 then [cp]
    else if cp < 0x800 then [0xC0 + cp / 0x40, 0x80 + cp % 0x40]
    else if cp < 0x1_0000 then [0xE0 + cp / 0x1000, 0x80 + cp / 0x40 % 0x40, 0x80 + cp % 0x40]
    else [0xF0 + cp / 0x4_0000, 0x80 + cp / 0x1000 % 0x40, 0x80 + cp / 0x40 % 0x40, 0x80 + cp % 0x40]
  }

  function EncodeAll(cps: seq<Scalar>): seq<byte> {
    if cps == [] then [] else Encode(cps[0]) + EncodeAll(cps[1..])
  }

  lemma {:induction false} EncodeAllConcat(a: seq<Scalar>, b: seq<Scalar>)
    ensures EncodeAll(a + b) == EncodeAll(a) + EncodeAll(b)
  {
    if a == [] {
      assert a + b == b;
    } else {
      EncodeAllConcat(a[1..], b);
      assert (a + b)[1..] == a[1..] + b;
      Regroup(Encode(a[0]), EncodeAll(a[1..]), EncodeAll(b));
    }
  }

  // ---------------------------------------------------------------------
  // The decoder, which accepts any bytes
  // ---------------------------------------------------------------------

  /** One step of the decoder: the code point it reports and the bytes it passes over. */
  datatype Chunk = Chunk(cp: nat, len: nat)

  /** utf8_codepoint_len: continuation bytes are not checked, and a lead byte that
      does not fit before the limit counts as one byte. */
  function CodepointAt(text: seq<byte>, pos: nat, limit: nat): (c: Chunk)
    requires pos < limit <= |text|
    ensures 1 <= c.len <= 4 && pos + c.len <= limit
    ensures c.cp > 0xFFFF ==> c.len == 4
  {
    var b: int := text[pos];
    if b < 0x80 then Chunk(b, 1)
    else if 0xC0 <= b < 0xE0 && pos + 1 < limit then
      Chunk(b % 0x20 * 0x40 + Low6(text[pos + 1]), 2)
    else if 0xE0 <= b < 0xF0 && pos + 2 < limit then
      Chunk(b % 0x10 * 0x1000 + Low6(text[pos + 1]) * 0x40 + Low6(text[pos + 2]), 3)
    else if 0xF0 <= b < 0xF8 && pos + 3 < limit then
      Chunk(b % 0x08 * 0x4_0000 + Low6(text[pos + 1]) * 0x1000
            + Low6(text[pos + 2]) * 0x40 + Low6(text[pos + 3]), 4)
    else Chunk(b, 1)
  }

  function Low6(b: byte): nat {
    b % 0x40
  }

  /** What the decoder sees between two positions. */
  function Chunks(text: seq<byte>, pos: nat, limit: nat): seq<Chunk>
    requires pos <= limit <= |text|
    decreases limit - pos
  {
    if pos == limit then []
    else
      var c := CodepointAt(text, pos, limit);
      [c] + Chunks(text, pos + c.len, limit)
  }

  /** delete_units_for_codepoint: a code point, or its UTF-16 code units. */
  function UnitsOf(cp: nat, codePoints: bool): nat {
    if codePoints then 1 else if cp > 0xFFFF then 2 else 1
  }

  /** On any bytes, only a complete four-byte sequence that is not overlong counts as a
      surrogate pair. */
  lemma CountsAsPairIff(text: seq<byte>, pos: nat, limit: nat)
    requires pos < limit <= |text|
    ensures UnitsOf(CodepointAt(text, pos, limit).cp, false) == 2
       <==> 0xF0 <= text[pos] < 0xF8 && pos + 3 < limit && (text[pos] > 0xF0 || Low6(text[pos + 1]) >= 0x10)
  {
  }

  function Units(cs: seq<Chunk>, codePoints: bool): nat {
    if cs == [] then 0 else UnitsOf(cs[0].cp, codePoints) + Units(cs[1..], codePoints)
  }

  function Bytes(cs: seq<Chunk>): nat {
    if cs == [] then 0 else cs[0].len + Bytes(cs[1..])
  }

  lemma {:induction false} SumsConcat(a: seq<Chunk>, b: seq<Chunk>, codePoints: bool)
    ensures Units(a + b, codePoints) == Units(a, codePoints) + Units(b, codePoints)
    ensures Bytes(a + b) == Bytes(a) + Bytes(b)
  {
    if a == [] {
      assert a + b == b;
    } else {
      SumsConcat(a[1..], b, codePoints);
      assert (a + b)[1..] == a[1..] + b;
    }
  }

  lemma SumsSplit(cs: seq<Chunk>, k: nat, codePoints: bool)
    requires k <= |cs|
    ensures Units(cs, codePoints) == Units(cs[..k], codePoints) + Units(cs[k..], codePoints)
    ensures Bytes(cs) == Bytes(cs[..k]) + Bytes(cs[k..])
  {
    SumsConcat(cs[..k], cs[k..], codePoints);
    assert cs[..k] + cs[k..] == cs;
  }

  /** The decoder passes over every byte once, and each chunk is as long as its units. */
  lemma {:induction false} ChunksCover(text: seq<byte>, pos: nat, limit: nat, codePoints: bool)
    requires pos <= limit <= |text|
    ensures Bytes(Chunks(text, pos, limit)) == limit - pos
    ensures Units(Chunks(text, pos, limit), codePoints) <= limit - pos
    decreases limit - pos
  {
    if pos < limit {
      ChunksCover(text, pos + CodepointAt(text, pos, limit).len, limit, codePoints);
    }
  }

  // ---------------------------------------------------------------------
  // What a deletion must cover
  // ---------------------------------------------------------------------

  /** The last k chunks reach n units (or are all there is) and no fewer do. */
  predicate FewestLast(cs: seq<Chunk>, k: nat, n: nat, codePoints: bool) {
    && k <= |cs|
    && (Units(cs[|cs| - k..], codePoints) >= n || k == |cs|)
    && (k > 0 ==> Units(cs[|cs| - k + 1..], codePoints) < n)
  }

  /** The first k chunks reach n units (or are all there is) and no fewer do. */
  predicate FewestFirst(cs: seq<Chunk>, k: nat, n: nat, codePoints: bool) {
    && k <= |cs|
    && (Units(cs[..k], codePoints) >= n || k == |cs|)
    && (k > 0 ==> Units(cs[..k - 1], codePoints) < n)
  }

  ghost predicate CoversBefore(text: seq<byte>, cursor: nat, n: nat, codePoints: bool, bytes: nat)
    requires cursor <= |text|
  {
    var cs := Chunks(text, 0, cursor);
    exists k: nat :: FewestLast(cs, k, n, codePoints) && bytes == Bytes(cs[|cs| - k..])
  }

  ghost predicate CoversAfter(text: seq<byte>, cursor: nat, n: nat, codePoints: bool, bytes: nat)
    requires cursor <= |text|
  {
    var cs := Chunks(text, cursor, |text|);
    exists k: nat :: FewestFirst(cs, k, n, codePoints) && bytes == Bytes(cs[..k])
  }

  lemma {:induction false} UnitsPositive(cs: seq<Chunk>, codePoints: bool)
    ensures |cs| <= Units(cs, codePoints) <= 2 * |cs|
    ensures codePoints ==> Units(cs, codePoints) == |cs|
  {
    if cs != [] {
      UnitsPositive(cs[1..], codePoints);
    }
  }

  lemma {:induction false} SuffixUnits(cs: seq<Chunk>, i: nat, codePoints: bool)
    requires i < |cs|
    ensures Units(cs[i..], codePoints) == UnitsOf(cs[i].cp, codePoints) + Units(cs[i + 1..], codePoints)
    ensures Units(cs[..i + 1], codePoints) == Units(cs[..i], codePoints) + UnitsOf(cs[i].cp, codePoints)
    ensures Bytes(cs[..i + 1]) == Bytes(cs[..i]) + cs[i].len
  {
    assert cs[i..][1..] == cs[i + 1..];
    SumsConcat(cs[..i], [cs[i]], codePoints);
    assert cs[..i] + [cs[i]] == cs[..i + 1];
  }

  lemma {:induction false} UnitsMonotone(cs: seq<Chunk>, i: nat, j: nat, codePoints: bool)
    requires i <= j <= |cs|
    ensures Units(cs[j..], codePoints) <= Units(cs[i..], codePoints)
    ensures Units(cs[..i], codePoints) <= Units(cs[..j], codePoints)
    decreases j - i
  {
    if i < j {
      SuffixUnits(cs, i, codePoints);
      UnitsMonotone(cs, i + 1, j, codePoints);
    }
  }

  /** Only one number of chunks is the fewest, so each relation names one result. */
  lemma FewestLastUnique(cs: seq<Chunk>, j: nat, k: nat, n: nat, codePoints: bool)
    requires FewestLast(cs, j, n, codePoints) && FewestLast(cs, k, n, codePoints)
    ensures j == k
  {
    if j < k {
      UnitsMonotone(cs, |cs| - k + 1, |cs| - j, codePoints);
    } else if k < j {
      UnitsMonotone(cs, |cs| - j + 1, |cs| - k, codePoints);
    }
  }

  lemma FewestFirstUnique(cs: seq<Chunk>, j: nat, k: nat, n: nat, codePoints: bool)
    requires FewestFirst(cs, j, n, codePoints) && FewestFirst(cs, k, n, codePoints)
    ensures j == k
  {
    if j < k {
      UnitsMonotone(cs, j, k - 1, codePoints);
    } else if k < j {
      UnitsMonotone(cs, k, j - 1, codePoints);
    }
  }

  /** If the chunks in front of position i are the most that stay within what the request
      leaves over, the chunks from i on are the fewest that reach it. */
  lemma KeptPrefixIsFewestLast(cs: seq<Chunk>, i: nat, n: nat, codePoints: bool)
    requires i <= |cs|
    requires var total := Units(cs, codePoints);
             var target := if total > n then total - n else 0;
             && Units(cs[..i], codePoints) <= target
             && (i < |cs| ==> Units(cs[..i], codePoints) + UnitsOf(cs[i].cp, codePoints) > target)
    ensures FewestLast(cs, |cs| - i, n, codePoints)
  {
    SumsSplit(cs, i, codePoints);
    UnitsPositive(cs[..i], codePoints);
    assert |cs| - (|cs| - i) == i;
    if i < |cs| {
      SuffixUnits(cs, i, codePoints);
      assert |cs| - (|cs| - i) + 1 == i + 1;
    }
  }

  // ---------------------------------------------------------------------
  // utf8_delete_bytes_before / utf8_delete_bytes_after
  // ---------------------------------------------------------------------

  /** How the loops advance: the chunks still to come are all[i..], and c is the next one. */
  lemma ChunkStep(text: seq<byte>, from: nat, pos: nat, limit: nat, all: seq<Chunk>, i: nat, c: Chunk, codePoints: bool)
    requires from <= pos < limit <= |text| && all == Chunks(text, from, limit)
    requires i <= |all| && all[i..] == Chunks(text, pos, limit) && c == CodepointAt(text, pos, limit)
    ensures i < |all| && all[i] == c && all[i + 1..] == Chunks(text, pos + c.len, limit)
    ensures Units(all[..i + 1], codePoints) == Units(all[..i], codePoints) + UnitsOf(c.cp, codePoints)
    ensures Bytes(all[..i + 1]) == Bytes(all[..i]) + c.len
    ensures Units(all[..i + 1], codePoints) <= |text|
  {
    assert all[i..] == [c] + all[i..][1..];
    assert all[i..][1..] == all[i + 1..];
    SuffixUnits(all, i, codePoints);
    ChunksCover(text, from, limit, codePoints);
    UnitsMonotone(all, i + 1, |all|, codePoints);
    assert all[..|all|] == all;
  }

  /** The first loop of utf8_delete_bytes_before; the counter is 32 bits wide. */
  method TotalUnits(text: seq<byte>, cursor: nat, codePoints: bool) returns (totalUnits: nat)
    requires cursor <= |text|
    ensures |text| < U32 ==> totalUnits == Units(Chunks(text, 0, cursor), codePoints)
  {
    ghost var all, i := Chunks(text, 0, cursor), 0;
    totalUnits := 0;
    var pos := 0;
    while pos < cursor
      invariant pos <= cursor && i <= |all| && all[i..] == Chunks(text, pos, cursor)
      invariant |text| < U32 ==> totalUnits == Units(all[..i], codePoints)
    {
      var c := CodepointAt(text, pos, cursor);
      ChunkStep(text, 0, pos, cursor, all, i, c, codePoints);
      totalUnits := Wrap32(totalUnits + UnitsOf(c.cp, codePoints));
      pos, i := pos + c.len, i + 1;
    }
    assert all[..i] == all;
  }

  /** The second loop: the bytes of the longest run of chunks from the start whose units
      stay within the target. */
  method KeepUnits(text: seq<byte>, cursor: nat, targetUnits: nat, codePoints: bool)
    returns (start: nat, ghost i: nat)
    requires cursor <= |text|
    ensures start <= cursor && i <= |Chunks(text, 0, cursor)|
    ensures var all := Chunks(text, 0, cursor);
            && all[i..] == Chunks(text, start, cursor)
            && (|text| < U32 ==>
                  && Units(all[..i], codePoints) <= targetUnits
                  && (i < |all| ==> Units(all[..i], codePoints) + UnitsOf(all[i].cp, codePoints) > targetUnits))
  {
    ghost var all := Chunks(text, 0, cursor);
    var units: nat, pos: nat := 0, 0;
    start, i := 0, 0;
    while pos < cursor
      invariant pos == start <= cursor && i <= |all| && all[i..] == Chunks(text, pos, cursor)
      invariant |text| < U32 ==> units == Units(all[..i], codePoints) <= targetUnits
    {
      var c := CodepointAt(text, pos, cursor);
      var cpUnits := UnitsOf(c.cp, codePoints);
      ChunkStep(text, 0, pos, cursor, all, i, c, codePoints);
      if Wrap32(units + cpUnits) <= targetUnits {
        pos := pos + c.len;
        units := Wrap32(units + cpUnits);
        start, i := pos, i + 1;
      } else {
        break;
      }
    }
  }

  /** On any bytes the result stays inside the text, and below 4 GiB, where the 32-bit
      counters do not wrap, it is the fewest chunks before the cursor reaching n units. */
  method DeleteBytesBefore(text: seq<byte>, at: nat, n: nat, codePoints: bool) returns (bytes: nat)
    ensures bytes <= Min(at, |text|)
    ensures |text| < U32 ==> CoversBefore(text, Min(at, |text|), n, codePoints, bytes)
  {
    var cursor := Min(at, |text|);
    ghost var all := Chunks(text, 0, cursor);
    if n == 0 {
      assert FewestLast(all, 0, 0, codePoints) && Bytes(all[|all| - 0..]) == 0;
      return 0;
    }
    var totalUnits := TotalUnits(text, cursor, codePoints);
    var targetUnits := if totalUnits > n then totalUnits - n else 0;
    ghost var i;
    var start: nat;
    start, i := KeepUnits(text, cursor, targetUnits, codePoints);
    bytes := Wrap32(cursor - start);
    if |text| < U32 {
      KeptPrefixIsFewestLast(all, i, n, codePoints);
      ChunksCover(text, start, cursor, codePoints);
      assert |all| - (|all| - i) == i;
    }
  }

  method DeleteBytesAfter(text: seq<byte>, at: nat, n: nat, codePoints: bool) returns (bytes: nat)
    ensures Min(at, |text|) + bytes <= |text|
    ensures |text| < U32 ==> CoversAfter(text, Min(at, |text|), n, codePoints, bytes)
  {
    var cursor := Min(at, |text|);
    ghost var all, i := Chunks(text, cursor, |text|), 0;
    var units: nat, pos: nat := 0, cursor;
    while pos < |text| && units < n
      invariant cursor <= pos <= |text| && i <= |all| && all[i..] == Chunks(text, pos, |text|)
      invariant Bytes(all[..i]) == pos - cursor
      invariant |text| < U32 ==> units == Units(all[..i], codePoints)
      invariant |text| < U32 && i > 0 ==> Units(all[..i - 1], codePoints) < n
    {
      var c := CodepointAt(text, pos, |text|);
      ChunkStep(text, cursor, pos, |text|, all, i, c, codePoints);
      units := Wrap32(units + UnitsOf(c.cp, codePoints));
      pos, i := pos + c.len, i + 1;
    }
    bytes := Wrap32(pos - cursor);
    if |text| < U32 {
      assert FewestFirst(all, i, n, codePoints);
    }
  }

  // ---------------------------------------------------------------------
  // Valid text
  // ---------------------------------------------------------------------

  function AsChunks(cps: seq<Scalar>): (cs: seq<Chunk>)
    ensures |cs| == |cps|
  {
    if cps == [] then [] else [Chunk(cps[0], |Encode(cps[0])|)] + AsChunks(cps[1..])
  }

  lemma {:induction false} AsChunksSlice(cps: seq<Scalar>, k: nat)
    requires k <= |cps|
    ensures AsChunks(cps)[k..] == AsChunks(cps[k..])
    ensures AsChunks(cps)[..k] == AsChunks(cps[..k])
  {
    if k > 0 {
      AsChunksSlice(cps[1..], k - 1);
      assert cps[1..][k - 1..] == cps[k..];
      assert cps[..k][1..] == cps[1..][..k - 1];
    }
  }

  lemma {:induction false} AsChunksBytes(cps: seq<Scalar>)
    ensures Bytes(AsChunks(cps)) == |EncodeAll(cps)|
  {
    if cps != [] {
      AsChunksBytes(cps[1..]);
    }
  }

  lemma Decode2(text: seq<byte>, pos: nat, limit: nat, hi: nat, lo: nat)
    requires pos + 2 <= limit <= |text| && hi < 0x20 && lo < 0x40
    requires text[pos] == 0xC0 + hi && text[pos + 1] == 0x80 + lo
    ensures CodepointAt(text, pos, limit) == Chunk(hi * 0x40 + lo, 2)
  {}

  lemma Decode3(text: seq<byte>, pos: nat, limit: nat, hi: nat, mid: nat, lo: nat)
    requires pos + 3 <= limit <= |text| && hi < 0x10 && mid < 0x40 && lo < 0x40
    requires text[pos] == 0xE0 + hi && text[pos + 1] == 0x80 + mid && text[pos + 2] == 0x80 + lo
    ensures CodepointAt(text, pos, limit) == Chunk(hi * 0x1000 + mid * 0x40 + lo, 3)
  {}

  lemma Decode4(text: seq<byte>, pos: nat, limit: nat, hi: nat, mid: nat, mid': nat, lo: nat)
    requires pos + 4 <= limit <= |text| && hi < 0x08 && mid < 0x40 && mid' < 0x40 && lo < 0x40
    requires text[pos] == 0xF0 + hi && text[pos + 1] == 0x80 + mid
    requires text[pos + 2] == 0x80 + mid' && text[pos + 3] == 0x80 + lo
    ensures CodepointAt(text, pos, limit) == Chunk(hi * 0x4_0000 + mid * 0x1000 + mid' * 0x40 + lo, 4)
  {}

  /** Decoding one encoded scalar gives it back with its exact length. */
  lemma DecodeEncoded(text: seq<byte>, pos: nat, limit: nat, cp: Scalar)
    requires pos + |Encode(cp)| <= limit <= |text|
    requires text[pos..pos + |Encode(cp)|] == Encode(cp)
    ensures CodepointAt(text, pos, limit) == Chunk(cp, |Encode(cp)|)
  {
    var bs := Encode(cp);
    var sub := text[pos..pos + |bs|];
    assert text[pos] == sub[0];
    if 0x80 <= cp {
      assert text[pos + 1] == sub[1];
      if cp < 0x800 {
        Decode2(text, pos, limit, cp / 0x40, cp % 0x40);
      } else {
        assert text[pos + 2] == sub[2];
        assert cp / 0x40 / 0x40 == cp / 0x1000;
        if cp < 0x1_0000 {
          Decode3(text, pos, limit, cp / 0x1000, cp / 0x40 % 0x40, cp % 0x40);
        } else {
          assert text[pos + 3] == sub[3];
          assert cp / 0x1000 / 0x40 == cp / 0x4_0000;
          Decode4(text, pos, limit, cp / 0x4_0000, cp / 0x1000 % 0x40, cp / 0x40 % 0x40, cp % 0x40);
        }
      }
    }
  }

  lemma PartsOf(text: seq<byte>, pos: nat, limit: nat, a: seq<byte>, b: seq<byte>)
    requires pos <= limit <= |text| && text[pos..limit] == a + b
    ensures pos + |a| <= limit && text[pos..pos + |a|] == a && text[pos + |a|..limit] == b
  {
    assert text[pos..limit][..|a|] == a && text[pos..limit][|a|..] == b;
  }

  lemma FirstChunk(text: seq<byte>, pos: nat, limit: nat, cp: Scalar, rest: seq<byte>)
    requires pos <= limit <= |text| && text[pos..limit] == Encode(cp) + rest
    ensures var next := pos + |Encode(cp)|;
            && next <= limit && text[next..limit] == rest
            && Chunks(text, pos, limit) == [Chunk(cp, |Encode(cp)|)] + Chunks(text, next, limit)
  {
    PartsOf(text, pos, limit, Encode(cp), rest);
    DecodeEncoded(text, pos, limit, cp);
  }

  lemma {:induction false} ChunksOfValid(text: seq<byte>, pos: nat, limit: nat, cps: seq<Scalar>)
    requires pos <= limit <= |text| && text[pos..limit] == EncodeAll(cps)
    ensures Chunks(text, pos, limit) == AsChunks(cps)
    decreases |cps|
  {
    if cps != [] {
      var first, rest := Encode(cps[0]), cps[1..];
      FirstChunk(text, pos, limit, cps[0], EncodeAll(rest));
      ChunksOfValid(text, pos + |first|, limit, rest);
      assert AsChunks(cps) == [Chunk(cps[0], |first|)] + AsChunks(rest);
    }
  }

  lemma BothParts(a: seq<byte>, b: seq<byte>)
    ensures (a + b)[0..|a|] == a && (a + b)[|a|..|a + b|] == b
  {
  }

  // ---------------------------------------------------------------------
  // UTF-16
  // ---------------------------------------------------------------------

  /** Section 2.1 of RFC 2781: a scalar value as one unit or as a surrogate pair. */
  function Utf16(cp: Scalar): seq<nat> {
    if cp < 0x1_0000 then [cp] else [0xD800 + (cp - 0x1_0000) / 0x400, 0xDC00 + (cp - 0x1_0000) % 0x400]
  }

  function Utf16All(cps: seq<Scalar>): seq<nat> {
    if cps == [] then [] else Utf16(cps[0]) + Utf16All(cps[1..])
  }

  /** Section 2.2 of RFC 2781, for units in which surrogates only come in pairs. */
  function FromUtf16(us: seq<nat>): seq<nat> {
    if us == [] then []
    else if 0xD800 <= us[0] < 0xDC00 && |us| > 1 && us[1] >= 0xDC00 then
      [(us[0] - 0xD800) * 0x400 + (us[1] - 0xDC00) + 0x1_0000] + FromUtf16(us[2..])
    else [us[0]] + FromUtf16(us[1..])
  }

  /** The encoding loses nothing and uses 16-bit units. */
  lemma {:induction false} Utf16RoundTrip(cps: seq<Scalar>)
    ensures FromUtf16(Utf16All(cps)) == cps
    ensures forall i :: 0 <= i < |Utf16All(cps)| ==> Utf16All(cps)[i] < 0x1_0000
  {
    if cps != [] {
      var us, first := Utf16All(cps), Utf16(cps[0]);
      Utf16RoundTrip(cps[1..]);
      assert us[|first|..] == Utf16All(cps[1..]) && us[0] == first[0];
      if cps[0] >= 0x1_0000 {
        assert us[1] == first[1];
        var cp: int := cps[0];
        assert (cp - 0x1_0000) / 0x400 * 0x400 + (cp - 0x1_0000) % 0x400 == cp - 0x1_0000;
      }
    }
  }

  /** A text as the IME counts it: its code points, or its length in UTF-16. */
  function Length(cps: seq<Scalar>, codePoints: bool): nat {
    if codePoints then |cps| else |Utf16All(cps)|
  }

  /** The units that the loops count are those. */
  lemma {:induction false} UnitsAreLength(cps: seq<Scalar>, codePoints: bool)
    ensures Units(AsChunks(cps), codePoints) == Length(cps, codePoints)
  {
    if cps != [] {
      UnitsAreLength(cps[1..], codePoints);
    }
  }

  /** The k last, or the k first, code points are n units long (or are all there is), and no
      fewer are. */
  predicate FewestAtEnd(cps: seq<Scalar>, k: nat, n: nat, codePoints: bool) {
    && k <= |cps|
    && (Length(cps[|cps| - k..], codePoints) >= n || k == |cps|)
    && (k > 0 ==> Length(cps[|cps| - k + 1..], codePoints) < n)
  }

  predicate FewestAtStart(cps: seq<Scalar>, k: nat, n: nat, codePoints: bool) {
    && k <= |cps|
    && (Length(cps[..k], codePoints) >= n || k == |cps|)
    && (k > 0 ==> Length(cps[..k - 1], codePoints) < n)
  }

  lemma SliceLength(cps: seq<Scalar>, k: nat, codePoints: bool)
    requires k <= |cps|
    ensures Units(AsChunks(cps)[k..], codePoints) == Length(cps[k..], codePoints)
    ensures Units(AsChunks(cps)[..k], codePoints) == Length(cps[..k], codePoints)
  {
    AsChunksSlice(cps, k);
    UnitsAreLength(cps[k..], codePoints);
    UnitsAreLength(cps[..k], codePoints);
  }

  lemma FewestAtEndIff(cps: seq<Scalar>, k: nat, n: nat, codePoints: bool)
    ensures FewestLast(AsChunks(cps), k, n, codePoints) <==> FewestAtEnd(cps, k, n, codePoints)
  {
    if k <= |cps| {
      var cs := AsChunks(cps);
      assert Units(cs[|cps| - k..], codePoints) == Length(cps[|cps| - k..], codePoints) by {
        SliceLength(cps, |cps| - k, codePoints);
      }
      assert k > 0 ==> Units(cs[|cps| - k + 1..], codePoints) == Length(cps[|cps| - k + 1..], codePoints) by {
        if k > 0 {
          SliceLength(cps, |cps| - k + 1, codePoints);
        }
      }
    }
  }

  lemma FewestAtStartIff(cps: seq<Scalar>, k: nat, n: nat, codePoints: bool)
    ensures FewestFirst(AsChunks(cps), k, n, codePoints) <==> FewestAtStart(cps, k, n, codePoints)
  {
    if k <= |cps| {
      SliceLength(cps, k, codePoints);
      if k > 0 {
        SliceLength(cps, k - 1, codePoints);
      }
    }
  }

  // ---------------------------------------------------------------------
  // What a deletion leaves
  // ---------------------------------------------------------------------

  /** Before the cursor: the k last code points of the text in front of it. */
  lemma BeforeOnValidText(left: seq<Scalar>, right: seq<byte>, n: nat, codePoints: bool, before: nat)
    returns (k: nat)
    requires CoversBefore(EncodeAll(left) + right, |EncodeAll(left)|, n, codePoints, before)
    ensures FewestAtEnd(left, k, n, codePoints) && before == |EncodeAll(left[|left| - k..])|
    ensures Length(left[|left| - k..], codePoints) <= n + 1 && (codePoints ==> k == Min(n, |left|))
  {
    var text, cursor := EncodeAll(left) + right, |EncodeAll(left)|;
    BothParts(EncodeAll(left), right);
    ChunksOfValid(text, 0, cursor, left);
    var cs := AsChunks(left);
    k :| FewestLast(cs, k, n, codePoints) && before == Bytes(cs[|cs| - k..]);
    AsChunksSlice(left, |left| - k);
    AsChunksBytes(left[|left| - k..]);
    OvershootLast(cs, k, n, codePoints);
    FewestAtEndIff(left, k, n, codePoints);
    SliceLength(left, |left| - k, codePoints);
  }

  /** After the cursor: the j first code points of the text behind it. */
  lemma AfterOnValidText(left: seq<byte>, right: seq<Scalar>, m: nat, codePoints: bool, after: nat)
    returns (j: nat)
    requires CoversAfter(left + EncodeAll(right), |left|, m, codePoints, after)
    ensures FewestAtStart(right, j, m, codePoints) && after == |EncodeAll(right[..j])|
    ensures Length(right[..j], codePoints) <= m + 1 && (codePoints ==> j == Min(m, |right|))
  {
    var text, cursor := left + EncodeAll(right), |left|;
    BothParts(left, EncodeAll(right));
    ChunksOfValid(text, cursor, |text|, right);
    var cs := AsChunks(right);
    j :| FewestFirst(cs, j, m, codePoints) && after == Bytes(cs[..j]);
    AsChunksSlice(right, j);
    AsChunksBytes(right[..j]);
    OvershootFirst(cs, j, m, codePoints);
    FewestAtStartIff(right, j, m, codePoints);
    SliceLength(right, j, codePoints);
  }

  /** Deleting the bytes around the cursor leaves rest. */
  predicate CutTo(text: seq<byte>, cursor: nat, before: nat, after: nat, rest: seq<byte>) {
    before <= cursor && cursor + after <= |text| && text[..cursor - before] + text[cursor + after..] == rest
  }

  /** On valid text with the cursor on a boundary, the two byte counts remove whole code
      points: the k last before the cursor and the j first after it, each the fewest whose
      length in UTF-16, or in code points, reaches what was asked for, overshooting only by
      half of a surrogate pair; what is left is valid UTF-8. */
  lemma DeletionOnValidText(left: seq<Scalar>, right: seq<Scalar>, n: nat, m: nat, codePoints: bool,
                            before: nat, after: nat) returns (k: nat, j: nat)
    requires CoversBefore(EncodeAll(left) + EncodeAll(right), |EncodeAll(left)|, n, codePoints, before)
    requires CoversAfter(EncodeAll(left) + EncodeAll(right), |EncodeAll(left)|, m, codePoints, after)
    ensures FewestAtEnd(left, k, n, codePoints) && FewestAtStart(right, j, m, codePoints)
    ensures Length(left[|left| - k..], codePoints) <= n + 1
    ensures Length(right[..j], codePoints) <= m + 1
    ensures codePoints ==> k == Min(n, |left|) && j == Min(m, |right|)
    ensures CutTo(EncodeAll(left) + EncodeAll(right), |EncodeAll(left)|, before, after, EncodeAll(left[..|left| - k] + right[j..]))
  {
    k := BeforeOnValidText(left, EncodeAll(right), n, codePoints, before);
    j := AfterOnValidText(EncodeAll(left), right, m, codePoints, after);
    RemainingText(left, right, k, j);
  }

  lemma RemainingText(left: seq<Scalar>, right: seq<Scalar>, k: nat, j: nat)
    requires k <= |left| && j <= |right|
    ensures CutTo(EncodeAll(left) + EncodeAll(right), |EncodeAll(left)|,
                  |EncodeAll(left[|left| - k..])|, |EncodeAll(right[..j])|, EncodeAll(left[..|left| - k] + right[j..]))
  {
    EncodeAllConcat(left[..|left| - k], right[j..]);
    EncodeSplit(left, |left| - k);
    EncodeSplit(right, j);
    CutOut(EncodeAll(left), EncodeAll(right), EncodeAll(left[..|left| - k]), EncodeAll(left[|left| - k..]),
           EncodeAll(right[..j]), EncodeAll(right[j..]));
  }

  lemma EncodeSplit(cps: seq<Scalar>, i: nat)
    requires i <= |cps|
    ensures EncodeAll(cps) == EncodeAll(cps[..i]) + EncodeAll(cps[i..])
  {
    assert cps == cps[..i] + cps[i..];
    EncodeJoin(cps[..i], cps[i..], cps);
  }

  lemma EncodeJoin(a: seq<Scalar>, b: seq<Scalar>, c: seq<Scalar>)
    requires c == a + b
    ensures EncodeAll(c) == EncodeAll(a) + EncodeAll(b)
  {
    EncodeAllConcat(a, b);
  }

  lemma CutOut(left: seq<byte>, right: seq<byte>, a: seq<byte>, b: seq<byte>, c: seq<byte>, d: seq<byte>)
    requires left == a + b && right == c + d
    ensures CutTo(left + right, |left|, |b|, |c|, a + d)
  {
    var text := left + right;
    assert text[..|left| - |b|] == a;
    assert text[|left| + |c|..] == d;
  }

  lemma OvershootLast(cs: seq<Chunk>, k: nat, n: nat, codePoints: bool)
    requires FewestLast(cs, k, n, codePoints)
    ensures Units(cs[|cs| - k..], codePoints) <= n + 1
    ensures codePoints ==> k == Min(n, |cs|)
  {
    UnitsPositive(cs[|cs| - k..], codePoints);
    if k > 0 {
      assert cs[|cs| - k..][1..] == cs[|cs| - k + 1..];
      UnitsPositive(cs[|cs| - k + 1..], codePoints);
    }
  }

  lemma OvershootFirst(cs: seq<Chunk>, k: nat, n: nat, codePoints: bool)
    requires FewestFirst(cs, k, n, codePoints)
    ensures Units(cs[..k], codePoints) <= n + 1
    ensures codePoints ==> k == Min(n, |cs|)
  {
    UnitsPositive(cs[..k], codePoints);
    if k > 0 {
      SumsSplit(cs[..k], k - 1, codePoints);
      assert cs[..k][..k - 1] == cs[..k - 1];
      UnitsPositive(cs[..k][k - 1..], codePoints);
      UnitsPositive(cs[..k - 1], codePoints);
      assert Units(cs[..k][k - 1..], codePoints) <= 2;
    }
  }

  // ---------------------------------------------------------------------
  // text_input_delete_byte_counts
  // ---------------------------------------------------------------------

  const DELETE_SURROUNDING_MAX_COUNT: nat := 256

  function ClampDeleteCount(count: nat): (c: nat)
    ensures Nearest(c, count, DELETE_SURROUNDING_MAX_COUNT)
  {
    if count > DELETE_SURROUNDING_MAX_COUNT then DELETE_SURROUNDING_MAX_COUNT else count
  }

  /** The committed cursor, brought inside the text. */
  function ClampCursor(cursor: int, text: seq<byte>): (at: nat)
    ensures Nearest(at, cursor, |text|)
  {
    if cursor < 0 then 0 else Min(cursor, |text|)
  }

  /** The byte counts sent in delete_surrounding_text; false if the client has committed
      no surrounding text, and then backspace and delete keys are sent instead. */
  method DeleteByteCounts(surrounding: Option<seq<byte>>, cursor: int, n: nat, m: nat, codePoints: bool)
    returns (known: bool, before: nat, after: nat)
    ensures known == surrounding.Some?
    ensures !known ==> before == 0 && after == 0
    ensures known ==>
              var text, at := surrounding.value, ClampCursor(cursor, surrounding.value);
              && before <= at && at + after <= |text|
              && (|text| < U32 ==> CoversBefore(text, at, n, codePoints, before))
              && (|text| < U32 ==> CoversAfter(text, at, m, codePoints, after))
  {
    before, after := 0, 0;
    if surrounding.None? {
      return false, 0, 0;
    }
    var at := ClampCursor(cursor, surrounding.value);
    before := DeleteBytesBefore(surrounding.value, at, n, codePoints);
    after := DeleteBytesAfter(surrounding.value, at, m, codePoints);
    known := true;
  }
}
