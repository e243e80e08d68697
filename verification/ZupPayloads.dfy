/** Compressed payloads inside a bank: firmware/zup_bank.py parses them, firmware/zup_extract.py repacks them. */
module ZupPayloads {
  import opened Bytes
  import opened Wrappers
  import opened Codec
  import opened ZupBank
  import Pieces

  const NESTED_HEADER_BYTES := 24
  const TYPE8_HEADER_BYTES := 8
  const MAX_OUTPUT := BANK_BYTES
  const KBZ: seq<byte> := [0x2B, 0x6B, 0x62, 0x7A]

  datatype PayloadFault =
    | BadBudget | BadBank | BadOffset | BadMode | BadDestination | BadPayloadStream | BadOutput | CrcMissing
    | CrcMismatch
    | BadMagic | BadStoredSize | BadOutputSize | BadStoredSum | BadOutputSum | BadRegion(fault: Fault)

  /** A parsed payload with its expanded data. */
  datatype Payload =
    | Type8(offset: nat, mode: u32, field: u32, compressedSize: nat, crc: u32, data: seq<byte>)
    | Nested(offset: nat, storedSize: u32, crc: u32, data: seq<byte>)
  {
    /** How many bytes of the bank the payload occupies from its offset on. */
    function Span(): nat {
      match this
      case Type8(_, _, _, n, _, _) => TYPE8_HEADER_BYTES + n + 4
      case Nested(_, n, _, _) => NESTED_HEADER_BYTES + n
    }

    function End(): nat {
      offset + Span()
    }
  }

  /** `parse_type8_payload`. */
  function ParseType8(c: Codec, bank: seq<byte>, offset: int, budget: int): Result<Payload, PayloadFault> {
    if !(0 <= budget <= MAX_OUTPUT) then Err(BadBudget)
    else if |bank| != BANK_BYTES then Err(BadBank)
    else if offset < 0 || offset % 4 != 0 || offset + TYPE8_HEADER_BYTES >= |bank| then Err(BadOffset)
    else
      var mode, field := U32At(bank, offset), U32At(bank, offset + 4);
      if mode > 1 then Err(BadMode)
      else if mode == 1 && field >= BANK_BYTES then Err(BadDestination)
      else
        var limit := if mode == 1 && BANK_BYTES - field < budget then BANK_BYTES - field else budget;
        var found :- Expand(c, bank[offset + TYPE8_HEADER_BYTES..], limit);
        Ok(Type8(offset, mode, field, found.consumed, found.crc, found.output))
  }

  datatype Expansion = Expansion(output: seq<byte>, consumed: nat, crc: u32)

  /** A stream with a CRC behind it, at the front of the rest of the bank. */
  function Expand(c: Codec, stored: seq<byte>, limit: int): Result<Expansion, PayloadFault> {
    match c.inflate(stored)
    case Broken => Err(BadPayloadStream)
    case Stream(output, n) =>
      if output == [] || |output| > limit || n > |stored| then Err(BadOutput)
      else if |stored| - n < 4 then Err(CrcMissing)
      else if n == 0 || c.crc(output) != LeU32At(stored, n) then Err(CrcMismatch)
      else Ok(Expansion(output, n, LeU32At(stored, n)))
  }

  /** `parse_nested_payload`. */
  function ParseNested(c: Codec, bank: seq<byte>, offset: int, budget: int): Result<Payload, PayloadFault> {
    if !(0 <= budget <= MAX_OUTPUT) then Err(BadBudget)
    else if |bank| != BANK_BYTES then Err(BadBank)
    else if offset < 0 || offset % 4 != 0 || offset + NESTED_HEADER_BYTES > |bank| then Err(BadOffset)
    else if bank[offset..offset + 4] != KBZ || U32At(bank, offset + 4) != 2 then Err(BadMagic)
    else
      var storedSize, outputSize := U32At(bank, offset + 12), U32At(bank, offset + 20);
      var start := offset + NESTED_HEADER_BYTES;
      if storedSize <= 8 || start + storedSize > |bank| then Err(BadStoredSize)
      else if !(0 < outputSize <= MAX_OUTPUT) then Err(BadOutputSize)
      else if outputSize > budget then Err(BadBudget)
      else
        var stored := bank[start..start + storedSize];
        if Sum(stored) % TWO32 != U32At(bank, offset + 8) then Err(BadStoredSum)
        else match InflateRegion(c, stored, outputSize)
          case Err(fault) => Err(BadRegion(fault))
          case Ok((output, crc)) =>
            if Sum(output) % TWO32 != U32At(bank, offset + 16) then Err(BadOutputSum)
            else Ok(Nested(offset, storedSize, crc, output))
  }

  /** The payload `p` is what its own parser finds at its offset. */
  ghost predicate Found(c: Codec, bank: seq<byte>, p: Payload) {
    match p
    case Type8(offset, _, _, _, _, _) => ParseType8(c, bank, offset, MAX_OUTPUT) == Ok(p)
    case Nested(offset, _, _, _) => ParseNested(c, bank, offset, MAX_OUTPUT) == Ok(p)
  }

  // ----- Repacking -----

  /** `_repack_type8`: a stream and its CRC. */
  function RepackType8(c: Codec, data: seq<byte>): seq<byte> {
    c.deflate(data) + Le32(c.crc(data))
  }

  /** The stored part of `_repack_nested`: a stream, its CRC and its size. */
  function NestedStored(c: Codec, data: seq<byte>): (s: seq<byte>)
    requires |data| < TWO32
  {
    c.deflate(data) + (Le32(c.crc(data)) + Le32(|data|))
  }

  /** `_repack_nested`, header and stored part. */
  function RepackNested(c: Codec, data: seq<byte>): seq<byte>
    requires |data| < TWO32 && |NestedStored(c, data)| < TWO32
  {
    var stored := NestedStored(c, data);
    KBZ + Be32(2) + Be32(Sum(stored) % TWO32) + Be32(|stored|) + Be32(Sum(data) % TWO32) + Be32(|data|) + stored
  }

  // ----- A payload only depends on its own bytes -----

  lemma SameWindow(a: seq<byte>, b: seq<byte>, lo: nat, hi: nat, i: nat, j: nat)
    requires Agree(a, b, lo, hi) && lo <= i <= j <= hi <= |a|
    ensures a[i..j] == b[i..j]
  {
  }

  /** The bytes a payload occupies lie in the bank. */
  lemma FoundFits(c: Codec, bank: seq<byte>, p: Payload)
    requires Found(c, bank, p)
    ensures |bank| == BANK_BYTES && p.offset % 4 == 0 && p.End() <= BANK_BYTES && 0 < |p.data| <= MAX_OUTPUT
  {
  }

  lemma FoundLocal(c: Codec, a: seq<byte>, b: seq<byte>, p: Payload)
    requires Lawful(c) && Found(c, a, p) && Agree(a, b, p.offset, p.End())
    ensures Found(c, b, p)
  {
    if p.Type8? {
      Type8Local(c, a, b, p);
    } else {
      NestedLocal(c, a, b, p);
    }
  }

  lemma Type8Local(c: Codec, a: seq<byte>, b: seq<byte>, p: Payload)
    requires Lawful(c) && p.Type8? && Found(c, a, p) && Agree(a, b, p.offset, p.End())
    ensures Found(c, b, p)
  {
    hide Value, Expand, Lawful;
    FoundFits(c, a, p);
    var o, n := p.offset, p.compressedSize;
    forall i, j | o <= i <= j <= p.End()
      ensures a[i..j] == b[i..j]
    {
      SameWindow(a, b, o, p.End(), i, j);
    }
    var limit := if p.mode == 1 then BANK_BYTES - p.field else MAX_OUTPUT;
    assert a[o + 8..][..n + 4] == a[o + 8..p.End()] && b[o + 8..][..n + 4] == b[o + 8..p.End()];
    ExpandLocal(c, a[o + 8..], b[o + 8..], limit);
  }

  lemma ExpandLocal(c: Codec, a: seq<byte>, b: seq<byte>, limit: int)
    requires Lawful(c) && Expand(c, a, limit).Ok?
    requires var n := Expand(c, a, limit).value.consumed; n + 4 <= |b| && a[..n + 4] == b[..n + 4]
    ensures Expand(c, b, limit) == Expand(c, a, limit)
  {
    hide Value, RoundTrip;
    var n := c.inflate(a).consumed;
    assert a[..n] == a[..n + 4][..n] && b[..n] == b[..n + 4][..n];
    assert a[n..n + 4] == a[..n + 4][n..] && b[n..n + 4] == b[..n + 4][n..];
    assert a[..n] <= b;
    assert c.inflate(b) == c.inflate(a);
  }

  lemma ExpandRepacked(c: Codec, stored: seq<byte>, data: seq<byte>, limit: int)
    requires Lawful(c) && data != [] && RepackType8(c, data) <= stored
    ensures |data| <= limit ==> Expand(c, stored, limit) == Ok(Expansion(data, |c.deflate(data)|, c.crc(data)))
    ensures |data| > limit ==> Expand(c, stored, limit).Err?
  {
    hide Value, PrefixOnly;
    var stream, crc := c.deflate(data), Le32(c.crc(data));
    var n := |stream|;
    assert stored[..n + 4] == stream + crc;
    assert stored[n..n + 4] == crc by {
      assert stored[n..n + 4] == stored[..n + 4][n..];
    }
    assert stored == stream + stored[n..] by {
      assert stored[..n] == stored[..n + 4][..n];
    }
    assert c.inflate(stream + stored[n..]) == Stream(data, n);
    WordRoundTrip(c.crc(data));
  }

  lemma NestedLocal(c: Codec, a: seq<byte>, b: seq<byte>, p: Payload)
    requires p.Nested? && Found(c, a, p) && Agree(a, b, p.offset, p.End())
    ensures Found(c, b, p)
  {
    hide InflateRegion, Sum, Value;
    FoundFits(c, a, p);
    var o := p.offset;
    forall i, j | o <= i <= j <= p.End()
      ensures a[i..j] == b[i..j]
    {
      SameWindow(a, b, o, p.End(), i, j);
    }
  }

  // ----- What was repacked is found again -----

  /** A type-8 replacement may be expanded: below the bank end from its destination, in mode 1. */
  predicate Expandable(mode: u32, field: u32, size: nat) {
    mode == 1 ==> size <= BANK_BYTES - field
  }

  /**
   A bank with a repacked type-8 stream behind a legal mode and field parses to the new data
   exactly when the data may be expanded.
   */
  lemma Type8Repacked(c: Codec, bank: seq<byte>, o: nat, mode: u32, field: u32, data: seq<byte>)
    requires Lawful(c) && |bank| == BANK_BYTES && o % 4 == 0 && 0 < |data| <= MAX_OUTPUT
    requires o + 8 + |RepackType8(c, data)| <= BANK_BYTES
    requires U32At(bank, o) == mode && U32At(bank, o + 4) == field && mode <= 1 && (mode == 1 ==> field < BANK_BYTES)
    requires bank[o + 8..o + 8 + |RepackType8(c, data)|] == RepackType8(c, data)
    ensures ParseType8(c, bank, o, MAX_OUTPUT).Ok? <==> Expandable(mode, field, |data|)
    ensures Expandable(mode, field, |data|) ==>
      ParseType8(c, bank, o, MAX_OUTPUT) == Ok(Type8(o, mode, field, |c.deflate(data)|, c.crc(data), data))
  {
    assert |RepackType8(c, data)| >= 4;
    hide Value, Digits, U32At, Expand, RepackType8;
    assert RepackType8(c, data) <= bank[o + 8..];
    ExpandRepacked(c, bank[o + 8..], data, if mode == 1 then BANK_BYTES - field else MAX_OUTPUT);
  }

  lemma NestedRepacked(c: Codec, bank: seq<byte>, o: nat, data: seq<byte>)
    requires Lawful(c) && |bank| == BANK_BYTES && o % 4 == 0 && 0 < |data| <= MAX_OUTPUT
    requires |NestedStored(c, data)| < TWO32 && o + |RepackNested(c, data)| <= BANK_BYTES
    requires bank[o..o + |RepackNested(c, data)|] == RepackNested(c, data)
    ensures ParseNested(c, bank, o, MAX_OUTPUT) == Ok(Nested(o, |NestedStored(c, data)|, c.crc(data), data))
  {
    hide Value, Digits, Sum, NestedStored, U32At, InflateRegion, Lawful;
    var stored := NestedStored(c, data);
    NestedFields(bank, o, Sum(stored) % TWO32, Sum(data) % TWO32, |data|, stored);
    NestedInflates(c, data);
  }

  lemma NestedInflates(c: Codec, data: seq<byte>)
    requires Lawful(c) && |data| < TWO32
    ensures InflateRegion(c, NestedStored(c, data), |data|) == Ok((data, c.crc(data)))
    ensures |NestedStored(c, data)| > 8
  {
    hide Value, Digits;
    var stored := NestedStored(c, data);
    var crc, size := Le32(c.crc(data)), Le32(|data|);
    assert c.inflate(c.deflate(data) + (crc + size)) == Stream(data, |c.deflate(data)|);
    var unused := stored[|c.deflate(data)|..];
    assert unused == crc + size;
    assert unused[0..4] == crc && unused[4..8] == size;
    WordRoundTrip(c.crc(data));
    WordRoundTrip(|data|);
  }

  /** The six header words of a nested payload, read back. */
  lemma NestedFields(bank: seq<byte>, o: nat, storedSum: u32, outputSum: u32, outputSize: u32, stored: seq<byte>)
    requires |stored| < TWO32 && o + 24 + |stored| <= |bank|
    requires bank[o..o + 24 + |stored|]
      == KBZ + Be32(2) + Be32(storedSum) + Be32(|stored|) + Be32(outputSum) + Be32(outputSize) + stored
    ensures bank[o..o + 4] == KBZ && U32At(bank, o + 4) == 2 && U32At(bank, o + 8) == storedSum
    ensures U32At(bank, o + 12) == |stored| && U32At(bank, o + 16) == outputSum && U32At(bank, o + 20) == outputSize
    ensures bank[o + 24..o + 24 + |stored|] == stored
  {
    hide Value, Digits;
    var all := KBZ + Be32(2) + Be32(storedSum) + Be32(|stored|) + Be32(outputSum) + Be32(outputSize) + stored;
    forall i, j | 0 <= i <= j <= |all|
      ensures bank[o + i..o + j] == all[i..j]
    {
      Pieces.SubSlice(bank, o, all, i, j);
    }
    assert bank[o..o + 4] == all[0..4] == KBZ;
    assert bank[o + 4..o + 8] == all[4..8] == Be32(2);
    assert bank[o + 8..o + 12] == all[8..12] == Be32(storedSum);
    assert bank[o + 12..o + 16] == all[12..16] == Be32(|stored|);
    assert bank[o + 16..o + 20] == all[16..20] == Be32(outputSum);
    assert bank[o + 20..o + 24] == all[20..24] == Be32(outputSize);
    assert bank[o + 24..o + 24 + |stored|] == all[24..] == stored;
    WordRoundTrip(2);
    WordRoundTrip(storedSum);
    WordRoundTrip(|stored|);
    WordRoundTrip(outputSum);
    WordRoundTrip(outputSize);
  }

  // ----- Exactly what parses -----

  /** A stored region inflates exactly if it is one stream with the checksum and the size of its data behind it. */
  lemma RegionIff(c: Codec, stored: seq<byte>, size: u32, output: seq<byte>, crc: u32)
    ensures InflateRegion(c, stored, size) == Ok((output, crc)) <==>
      && |stored| >= 8 && c.inflate(stored) == Stream(output, |stored| - 8)
      && |output| == size && crc == c.crc(output) && stored[|stored| - 8..] == Le32(crc) + Le32(size)
  {
    hide Value, Digits;
    if |stored| >= 8 {
      var trailer := stored[|stored| - 8..];
      TrailerIff(trailer, crc, size);
    }
  }

  lemma TrailerIff(t: seq<byte>, a: u32, b: u32)
    requires |t| == 8
    ensures t == Le32(a) + Le32(b) <==> LeU32At(t, 0) == a && LeU32At(t, 4) == b
  {
    hide Value, Digits;
    LeWordIff(t[0..4], a);
    LeWordIff(t[4..8], b);
    assert t == t[0..4] + t[4..8];
  }

  lemma LeWordIff(s: seq<byte>, v: u32)
    requires |s| == 4
    ensures s == Le32(v) <==> LeU32At(s, 0) == v
  {
    hide Value, Digits;
    assert s[0..4] == s && Swapped(Swapped(s)) == s;
    assert Pow256(4) == TWO32;
    DigitsOfValue(Swapped(s));
    WordRoundTrip(v);
  }

  lemma WordIff(s: seq<byte>, i: nat, v: u32)
    requires i + 4 <= |s|
    ensures U32At(s, i) == v <==> s[i..i + 4] == Be32(v)
  {
    hide Value, Digits;
    WordRewrite(s, i);
    WordRoundTrip(v);
  }

  /** The first 24 bytes of a nested payload. */
  function NestedHeader(stored: seq<byte>, data: seq<byte>): (h: seq<byte>)
    requires |stored| < TWO32 && |data| < TWO32
    ensures |h| == NESTED_HEADER_BYTES
  {
    KBZ + Be32(2) + Be32(Sum(stored) % TWO32) + Be32(|stored|) + Be32(Sum(data) % TWO32) + Be32(|data|)
  }

  lemma HeaderIff(bank: seq<byte>, o: nat, stored: seq<byte>, data: seq<byte>)
    requires o + NESTED_HEADER_BYTES <= |bank| && |stored| < TWO32 && |data| < TWO32
    ensures bank[o..o + NESTED_HEADER_BYTES] == NestedHeader(stored, data) <==>
      && bank[o..o + 4] == KBZ && U32At(bank, o + 4) == 2 && U32At(bank, o + 8) == Sum(stored) % TWO32
      && U32At(bank, o + 12) == |stored| && U32At(bank, o + 16) == Sum(data) % TWO32 && U32At(bank, o + 20) == |data|
  {
    hide Sum, U32At, Be32, NestedHeader;
    WordIff(bank, o + 4, 2);
    WordIff(bank, o + 8, Sum(stored) % TWO32);
    WordIff(bank, o + 12, |stored|);
    WordIff(bank, o + 16, Sum(data) % TWO32);
    WordIff(bank, o + 20, |data|);
    var b := bank[o..o + NESTED_HEADER_BYTES];
    HeaderParts(b, stored, data);
    InnerSlice(bank, o, 0);
    InnerSlice(bank, o, 4);
    InnerSlice(bank, o, 8);
    InnerSlice(bank, o, 12);
    InnerSlice(bank, o, 16);
    InnerSlice(bank, o, 20);
  }

  lemma InnerSlice(bank: seq<byte>, o: nat, k: nat)
    requires o + NESTED_HEADER_BYTES <= |bank| && k + 4 <= NESTED_HEADER_BYTES
    ensures bank[o..o + NESTED_HEADER_BYTES][k..k + 4] == bank[o + k..o + k + 4]
  {
    Pieces.SubSlice(bank, o, bank[o..o + NESTED_HEADER_BYTES], k, k + 4);
  }

  lemma HeaderParts(b: seq<byte>, stored: seq<byte>, data: seq<byte>)
    requires |b| == NESTED_HEADER_BYTES && |stored| < TWO32 && |data| < TWO32
    ensures b == NestedHeader(stored, data) <==>
      && b[0..4] == KBZ && b[4..8] == Be32(2) && b[8..12] == Be32(Sum(stored) % TWO32)
      && b[12..16] == Be32(|stored|) && b[16..20] == Be32(Sum(data) % TWO32) && b[20..24] == Be32(|data|)
  {
    hide Sum, Be32;
    var h := NestedHeader(stored, data);
    SixParts(b, h);
    assert h[0..4] == KBZ && h[4..8] == Be32(2) && h[8..12] == Be32(Sum(stored) % TWO32);
    assert h[12..16] == Be32(|stored|) && h[16..20] == Be32(Sum(data) % TWO32) && h[20..24] == Be32(|data|);
  }

  lemma SixParts(a: seq<byte>, b: seq<byte>)
    requires |a| == |b| == 24
    ensures a == b <==>
      && a[0..4] == b[0..4] && a[4..8] == b[4..8] && a[8..12] == b[8..12]
      && a[12..16] == b[12..16] && a[16..20] == b[16..20] && a[20..24] == b[20..24]
  {
    assert a == a[0..4] + a[4..8] + a[8..12] + a[12..16] + a[16..20] + a[20..24];
    assert b == b[0..4] + b[4..8] + b[8..12] + b[12..16] + b[16..20] + b[20..24];
  }

  /**
   A nested payload parses exactly if its header names the sums and sizes of what is stored and of the
   data, and what is stored inflates to the data.
   */
  lemma NestedIff(c: Codec, bank: seq<byte>, p: Payload)
    ensures p.Nested? && ParseNested(c, bank, p.offset, MAX_OUTPUT) == Ok(p) <==>
      && p.Nested? && |bank| == BANK_BYTES && p.offset % 4 == 0 && p.End() <= BANK_BYTES
      && p.storedSize > 8 && 0 < |p.data| <= MAX_OUTPUT
      && var stored := bank[p.offset + NESTED_HEADER_BYTES..p.End()];
        && bank[p.offset..p.offset + NESTED_HEADER_BYTES] == NestedHeader(stored, p.data)
        && c.inflate(stored) == Stream(p.data, p.storedSize - 8) && p.crc == c.crc(p.data)
        && stored[p.storedSize - 8..] == Le32(p.crc) + Le32(|p.data|)
  {
    hide Sum, U32At, InflateRegion, Le32, NestedHeader;
    if p.Nested? && |bank| == BANK_BYTES && p.End() <= BANK_BYTES {
      var stored := bank[p.offset + NESTED_HEADER_BYTES..p.End()];
      if |p.data| <= MAX_OUTPUT {
        HeaderIff(bank, p.offset, stored, p.data);
        RegionIff(c, stored, |p.data|, p.data, p.crc);
      }
    }
  }

  /**
   A type-8 payload parses exactly if its two words are legal and a nonempty stream of legal size with
   its checksum stands behind them.
   */
  lemma Type8Iff(c: Codec, bank: seq<byte>, p: Payload)
    ensures p.Type8? && ParseType8(c, bank, p.offset, MAX_OUTPUT) == Ok(p) <==>
      && p.Type8? && |bank| == BANK_BYTES && p.offset % 4 == 0 && p.End() <= BANK_BYTES
      && bank[p.offset..p.offset + 4] == Be32(p.mode) && bank[p.offset + 4..p.offset + 8] == Be32(p.field)
      && (p.mode == 0 || (p.mode == 1 && p.field < BANK_BYTES)) && 0 < p.compressedSize
      && 0 < |p.data| <= MAX_OUTPUT && Expandable(p.mode, p.field, |p.data|)
      && c.inflate(bank[p.offset + 8..]) == Stream(p.data, p.compressedSize) && p.crc == c.crc(p.data)
      && bank[p.End() - 4..p.End()] == Le32(p.crc)
  {
    hide Value, Digits, U32At, LeU32At, Le32, Be32;
    if p.Type8? && |bank| == BANK_BYTES && p.End() <= BANK_BYTES {
      WordIff(bank, p.offset, p.mode);
      WordIff(bank, p.offset + 4, p.field);
      var rest := bank[p.offset + 8..];
      var n := p.compressedSize;
      TrailingWord(rest, n, p.crc);
      assert rest[n..n + 4] == bank[p.End() - 4..p.End()];
    }
  }

  lemma TrailingWord(s: seq<byte>, i: nat, v: u32)
    requires i + 4 <= |s|
    ensures LeU32At(s, i) == v <==> s[i..i + 4] == Le32(v)
  {
    hide Value, Digits;
    LeWordIff(s[i..i + 4], v);
    assert s[i..i + 4][0..4] == s[i..i + 4];
  }
}
