/**
 The staged section of a bank and its XOR checksum: firmware/zup_extract.py computes and repairs
 it, firmware/zup_launch_trace.c validates it.
 */
module ZupSection {
  import opened Bytes
  import opened Wrappers
  import opened ZupBank

  const SECTION_OFFSET := 0x40000
  const SECTION_BYTES := 24
  const SECTION_MAGIC := 0x12340004
  const CHECKSUM_SEED: u32 := 0xDEADBEEF
  const CHECK_WORD := SECTION_OFFSET + 4

  datatype SectionFault = WrongBankSize | BadDescriptor

  datatype SectionInfo = SectionInfo(stored: u32, calculated: u32, descriptors: seq<u32>)

  // ----- What a section says -----

  function Start(descriptor: u32): nat {
    descriptor / 0x1_0000 * 0x100
  }

  function Size(descriptor: u32): nat {
    descriptor % 0x1_0000 * 0x100
  }

  predicate ValidDescriptor(descriptor: u32) {
    Size(descriptor) != 0 && Start(descriptor) % 4 == 0 && Size(descriptor) % 4 == 0
    && Start(descriptor) + Size(descriptor) <= BANK_BYTES
  }

  function Descriptors(bank: seq<byte>): (d: seq<u32>)
    requires |bank| == BANK_BYTES
    ensures |d| == 4
  {
    seq(4, i requires 0 <= i < 4 => U32At(bank, SECTION_OFFSET + 8 + 4 * i))
  }

  /** `acc` with the `n` words from `start` on XOR-ed in, one after the other. */
  function Fold(bank: seq<byte>, start: nat, n: nat, acc: u32): u32
    requires start + 4 * n <= |bank|
  {
    if n == 0 then acc else XorWord(Fold(bank, start, n - 1, acc), U32At(bank, start + 4 * (n - 1)))
  }

  /** The seed with the words of the first `j` descriptors' ranges folded in. */
  function Calculated(bank: seq<byte>, descriptors: seq<u32>, j: nat): u32
    requires |bank| == BANK_BYTES && j <= |descriptors|
    requires forall i :: 0 <= i < j ==> ValidDescriptor(descriptors[i])
  {
    if j == 0 then CHECKSUM_SEED
    else
      assert ValidDescriptor(descriptors[j - 1]);
      Fold(bank, Start(descriptors[j - 1]), Size(descriptors[j - 1]) / 4, Calculated(bank, descriptors, j - 1))
  }

  /** The section of a bank: none without the magic word. */
  function Section(bank: seq<byte>): Result<Option<SectionInfo>, SectionFault> {
    if |bank| != BANK_BYTES then Err(WrongBankSize)
    else if U32At(bank, SECTION_OFFSET) != SECTION_MAGIC then Ok(None)
    else
      var d := Descriptors(bank);
      if exists i :: 0 <= i < 4 && !ValidDescriptor(d[i]) then Err(BadDescriptor)
      else Ok(Some(SectionInfo(U32At(bank, CHECK_WORD), Calculated(bank, d, 4), d)))
  }

  /** The inner loop of `_section_info`. */
  method FoldRange(bank: seq<byte>, start: nat, size: nat, acc: u32) returns (sum: u32)
    requires size % 4 == 0 && start + size <= |bank|
    ensures sum == Fold(bank, start, size / 4, acc)
  {
    sum := acc;
    var offset := start;
    ghost var n := 0;
    while offset < start + size
      invariant offset == start + 4 * n <= start + size
      invariant sum == Fold(bank, start, n, acc)
    {
      sum := XorWord(sum, U32At(bank, offset));
      offset := offset + 4;
      n := n + 1;
    }
    assert n == size / 4;
  }

  /** `_section_info`. */
  method ReadSection(bank: seq<byte>) returns (r: Result<Option<SectionInfo>, SectionFault>)
    ensures r == Section(bank)
  {
    if |bank| != BANK_BYTES {
      return Err(WrongBankSize);
    }
    if U32At(bank, SECTION_OFFSET) != SECTION_MAGIC {
      return Ok(None);
    }
    var stored := U32At(bank, CHECK_WORD);
    var descriptors := Descriptors(bank);
    var calculated := CHECKSUM_SEED;
    for i := 0 to 4
      invariant forall j :: 0 <= j < i ==> ValidDescriptor(descriptors[j])
      invariant calculated == Calculated(bank, descriptors, i)
    {
      var start, size := Start(descriptors[i]), Size(descriptors[i]);
      if size == 0 || start % 4 != 0 || size % 4 != 0 || start + size > |bank| {
        return Err(BadDescriptor);
      }
      calculated := FoldRange(bank, start, size, calculated);
    }
    return Ok(Some(SectionInfo(stored, calculated, descriptors)));
  }

  // ----- The validator in C -----

  datatype Status =
    | ZltOk | ErrBankSize | ErrHeaderOffset | ErrTableAddress | ErrCount | ErrDescriptor | ErrMarker
    | ErrUnknownType | ErrMissingTerminal | ErrNonterminalType3 | ErrOverflow | ErrInput | ErrCallback

  /** `zlt_read_u32`. */
  function ZltRead(bank: seq<byte>, offset: u32): Option<u32> {
    if |bank| != BANK_BYTES || offset % 4 != 0 || offset + 4 > |bank| then None else Some(U32At(bank, offset))
  }

  /** The inner loop of `zlt_validate_section`. */
  method ZltFold(bank: seq<byte>, start: u32, size: u32, acc: u32) returns (failed: bool, sum: u32)
    requires |bank| == BANK_BYTES && start % 4 == 0 && size % 4 == 0 && start + size <= BANK_BYTES
    ensures !failed && sum == Fold(bank, start, size / 4, acc)
  {
    failed, sum := false, acc;
    var off: u32 := start;
    ghost var n := 0;
    while off < start + size
      invariant off == start + 4 * n <= start + size
      invariant sum == Fold(bank, start, n, acc) && !failed
    {
      var w := ZltRead(bank, off);
      if w == None {
        return true, sum;
      }
      sum := XorWord(sum, w.value);
      off := off + 4;
      n := n + 1;
    }
    assert n == size / 4;
  }

  /** `zlt_validate_section`: its offsets are 32-bit, and no sum of them wraps. */
  method ValidateSection(bank: seq<byte>) returns (status: Status, stored: u32, sum: u32)
    ensures status == match Section(bank)
      case Err(WrongBankSize) => ErrBankSize
      case Err(BadDescriptor) => ErrDescriptor
      case Ok(None) => ErrMarker
      case Ok(Some(_)) => ZltOk
    ensures status == ZltOk ==>
      stored == Section(bank).value.value.stored && sum == Section(bank).value.value.calculated
  {
    hide U32At, Fold;
    stored, sum := 0, CHECKSUM_SEED;
    if |bank| != BANK_BYTES {
      return ErrBankSize, stored, sum;
    }
    var magic := ZltRead(bank, SECTION_OFFSET);
    if magic == None {
      return ErrDescriptor, stored, sum;
    }
    if magic.value != SECTION_MAGIC {
      return ErrMarker, stored, sum;
    }
    var word := ZltRead(bank, CHECK_WORD);
    if word == None {
      return ErrDescriptor, stored, sum;
    }
    stored := word.value;
    ghost var d := Descriptors(bank);
    for i := 0 to 4
      invariant forall j :: 0 <= j < i ==> ValidDescriptor(d[j])
      invariant sum == Calculated(bank, d, i) && stored == U32At(bank, CHECK_WORD)
    {
      var desc := ZltRead(bank, SECTION_OFFSET + 8 + i * 4);
      if desc == None {
        return ErrDescriptor, stored, sum;
      }
      assert desc.value == d[i];
      var start: u32, size: u32 := desc.value / 0x1_0000 * 0x100, desc.value % 0x1_0000 * 0x100;
      if size == 0 {
        return ErrDescriptor, stored, sum;
      }
      if start % 4 != 0 || size % 4 != 0 {
        return ErrDescriptor, stored, sum;
      }
      if start + size > BANK_BYTES {
        return ErrDescriptor, stored, sum;
      }
      var failed;
      failed, sum := ZltFold(bank, start, size, sum);
      if failed {
        return ErrDescriptor, stored, sum;
      }
    }
    return ZltOk, stored, sum;
  }

  // ----- Repair -----

  /** `struct.pack_into` of the calculated sum over the stored one. */
  function Repaired(bank: seq<byte>, sum: u32): (r: seq<byte>)
    requires |bank| == BANK_BYTES
    ensures |r| == |bank|
  {
    Splice(bank, CHECK_WORD, Be32(sum))
  }

  predicate CoversCheckWord(descriptor: u32) {
    Start(descriptor) <= CHECK_WORD < Start(descriptor) + Size(descriptor)
  }

  /** How many of the first `j` ranges contain the stored word. */
  function Coverage(descriptors: seq<u32>, j: nat): nat
    requires j <= |descriptors|
  {
    if j == 0 then 0 else Coverage(descriptors, j - 1) + if CoversCheckWord(descriptors[j - 1]) then 1 else 0
  }

  /** `e` if `odd`, else nothing. */
  function Flip(odd: bool, e: u32): u32 {
    if odd then e else 0
  }

  lemma XorZero(a: nat, b: nat)
    ensures Xor(a, b) == 0 <==> a == b
    ensures Xor(a, b) == a <==> b == 0
  {
    XorLaws(a, b);
    XorLaws(b, b);
    XorLaws(b, a);
    XorCancels(b, a);
    XorLaws(a, 0);
    XorLaws(0, a);
    XorLaws(b, 0);
    XorLaws(0, b);
    XorLaws(a, a);
  }

  /** Two changes add up. */
  lemma FlipTwice(x: u32, a: bool, b: bool, e: u32)
    ensures Xor(Xor(x, Flip(a, e)), Flip(b, e)) == Xor(x, Flip(a != b, e))
  {
    XorLaws(x, 0);
    XorCancels(x, e);
    XorLaws(Xor(x, e), 0);
  }

  /** Moving a change past another word. */
  lemma XorSwap(x: nat, e: nat, w: nat)
    ensures Xor(Xor(x, e), w) == Xor(Xor(x, w), e)
  {
    XorAssociative(x, e, w);
    XorLaws(e, w);
    XorAssociative(x, w, e);
  }

  lemma RepairedWords(bank: seq<byte>, sum: u32, at: nat)
    requires |bank| == BANK_BYTES && at + 4 <= |bank| && at % 4 == 0
    ensures U32At(Repaired(bank, sum), at) == if at == CHECK_WORD then sum else U32At(bank, at)
  {
    hide Value, Digits;
    SpliceAt(bank, CHECK_WORD, Be32(sum));
    WordRoundTrip(sum);
    if at != CHECK_WORD {
      assert Repaired(bank, sum)[at..at + 4] == bank[at..at + 4];
    }
  }

  /** A range folds to the same, with the change of the stored word if it contains it. */
  lemma {:induction false} FoldRepaired(bank: seq<byte>, sum: u32, start: nat, n: nat, acc: u32, odd: bool)
    requires |bank| == BANK_BYTES && start % 4 == 0 && start + 4 * n <= |bank|
    ensures var e := XorWord(U32At(bank, CHECK_WORD), sum);
      Fold(Repaired(bank, sum), start, n, XorWord(acc, Flip(odd, e)))
        == XorWord(Fold(bank, start, n, acc), Flip(odd != (start <= CHECK_WORD < start + 4 * n), e))
  {
    hide Repaired, U32At, Xor;
    var e := XorWord(U32At(bank, CHECK_WORD), sum);
    if n > 0 {
      var at := start + 4 * (n - 1);
      var before := odd != (start <= CHECK_WORD < at);
      var x, w := Fold(bank, start, n - 1, acc), U32At(bank, at);
      FoldRepaired(bank, sum, start, n - 1, acc, odd);
      RepairedWords(bank, sum, at);
      XorSwap(x, Flip(before, e), U32At(Repaired(bank, sum), at));
      if at == CHECK_WORD {
        // x ^ sum == x ^ (w ^ w) ^ sum == (x ^ w) ^ e
        XorAssociative(x, w, e);
        XorAssociative(w, w, sum);
        XorLaws(w, w);
        XorLaws(sum, 0);
        XorLaws(0, sum);
        FlipTwice(XorWord(x, w), true, before, e);
      }
    }
  }

  lemma {:induction false} CalculatedRepaired(bank: seq<byte>, sum: u32, descriptors: seq<u32>, j: nat)
    requires |bank| == BANK_BYTES && j <= |descriptors|
    requires forall i :: 0 <= i < |descriptors| ==> ValidDescriptor(descriptors[i])
    ensures var e := XorWord(U32At(bank, CHECK_WORD), sum);
      Calculated(Repaired(bank, sum), descriptors, j)
        == XorWord(Calculated(bank, descriptors, j), Flip(Coverage(descriptors, j) % 2 == 1, e))
  {
    hide Repaired, U32At, Fold, Xor, Start, Size;
    if j == 0 {
      XorLaws(CHECKSUM_SEED, 0);
    } else {
      CalculatedRepaired(bank, sum, descriptors, j - 1);
      var d := descriptors[j - 1];
      FoldRepaired(bank, sum, Start(d), Size(d) / 4, Calculated(bank, descriptors, j - 1),
        Coverage(descriptors, j - 1) % 2 == 1);
    }
  }

  /**
   Repairing a section keeps its magic and its descriptors and stores the calculated sum. The new
   sum then agrees exactly when the stored word lies in an even number of the four ranges, which
   may overlap, or nothing had to change.
   */
  lemma RepairIff(bank: seq<byte>)
    requires Section(bank).Ok? && Section(bank).value.Some?
    ensures var info := Section(bank).value.value;
      var after := Section(Repaired(bank, info.calculated));
      && after.Ok? && after.value.Some?
      && after.value.value.descriptors == info.descriptors
      && after.value.value.stored == info.calculated
      && (after.value.value.stored == after.value.value.calculated <==>
        Coverage(info.descriptors, 4) % 2 == 0 || info.stored == info.calculated)
  {
    hide U32At, Repaired;
    var info := Section(bank).value.value;
    var out := Repaired(bank, info.calculated);
    RepairedWords(bank, info.calculated, SECTION_OFFSET);
    RepairedWords(bank, info.calculated, CHECK_WORD);
    assert Descriptors(out) == info.descriptors by {
      forall i | 0 <= i < 4
        ensures Descriptors(out)[i] == Descriptors(bank)[i]
      {
        RepairedWords(bank, info.calculated, SECTION_OFFSET + 8 + 4 * i);
      }
    }
    CalculatedRepaired(bank, info.calculated, info.descriptors, 4);
    XorZero(info.stored, info.calculated);
    XorZero(info.calculated, Xor(info.stored, info.calculated));
    XorLaws(info.calculated, 0);
  }
}
