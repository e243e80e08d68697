/** Whole profile files: firmware/cfgfmt.py's header, envelopes and split, and what its decoder makes of them. */
module CfgFiles {
  import opened Bytes
  import opened Wrappers
  import opened CfgRecords
  import CfgChecksum
  import CfgCipher

  // ----- Writing -----

  /** `checksum_simple`. */
  function SimpleChecksum(data: seq<byte>): u16 {
    Sum(data) % TWO16
  }

  /** The header record of a payload that fits the format: its checksum and its length. */
  function HeaderRecord(payload: seq<byte>, strong: bool): Tlv
    requires |payload| <= MAX_FORMAT_PAYLOAD_BYTES
  {
    var sum := if strong then CfgChecksum.InternetChecksum(payload) else SimpleChecksum(payload);
    Tlv(HEADER_TAG, Be16(sum) + Be16(|payload|))
  }

  /** `_header_block`. */
  function HeaderBlock(payload: seq<byte>, strong: bool): Result<seq<byte>, CfgFault> {
    if |payload| > MAX_FORMAT_PAYLOAD_BYTES then Err(PayloadTooLong) else EncodeTlv(HeaderRecord(payload, strong))
  }

  /** The pointer from the base file of a split to the extended one. */
  function Pointer(secondName: seq<byte>): Tlv {
    Tlv(LINK_TAG, secondName + [0])
  }

  /** The records that follow the header in one file. */
  function FileRecords(w: Wrapping, entries: seq<Entry>, omitSensitive: bool, part: Part, secondName: seq<byte>):
    seq<Tlv>
  {
    WrittenAll(w, Selected(entries, omitSensitive, part)) + if part == Base then [Pointer(secondName)] else []
  }

  /** How a file is protected: in the clear, with the converter's key, or in the strong envelope. */
  datatype Protection = Clear | Weak(key: seq<byte>) | Strong(key: seq<byte>, nonce: seq<byte>)

  function Payload(w: Wrapping, entries: seq<Entry>, omitSensitive: bool, part: Part, secondName: seq<byte>):
    Result<seq<byte>, CfgFault>
  {
    var built :- Built(w, entries, omitSensitive, part);
    if part != Base then Ok(built)
    else
      var pointer :- EncodeTlv(Pointer(secondName));
      Ok(built + pointer)
  }

  /** The file before it is protected. */
  function Plain(payload: seq<byte>, strong: bool): Result<seq<byte>, CfgFault> {
    var header :- HeaderBlock(payload, strong);
    Ok((if strong then [] else ATA) + header + payload)
  }

  /** `_write_one_file`. */
  function FileBytes(w: Wrapping, entries: seq<Entry>, omitSensitive: bool, part: Part, secondName: seq<byte>,
    p: Protection):
    Result<seq<byte>, CfgFault>
    requires p.Strong? ==> |p.nonce| == 8
  {
    var payload :- Payload(w, entries, omitSensitive, part, secondName);
    var plain :- Plain(payload, p.Strong?);
    match p
    case Clear => Ok(plain)
    case Weak(key) => Ok(CfgCipher.Crypted(CfgCipher.Fresh(key), plain))
    case Strong(key, nonce) => Ok(CfgCipher.Envelope(key, nonce, plain))
  }

  /** `_write_one_file` as it runs: one buffer that grows and is then encrypted. */
  method WriteOneFile(profile: Profile, w: Wrapping, omitSensitive: bool, part: Part, secondName: seq<byte>,
    p: Protection)
    returns (r: Result<seq<byte>, CfgFault>)
    requires profile.Valid() && (p.Strong? ==> |p.nonce| == 8)
    ensures r == FileBytes(w, profile.Entries(), omitSensitive, part, secondName, p)
  {
    hide Built, EncodeTlv, CfgCipher.Crypted, CfgCipher.Fresh, HeaderBlock, CfgCipher.Masked;
    var buf := if p.Strong? then [] else ATA;
    var payload :- BuildRecords(profile, w, omitSensitive, part);
    if part == Base {
      var pointer :- EncodeTlv(Pointer(secondName));
      payload := payload + pointer;
    }
    var header :- HeaderBlock(payload, p.Strong?);
    buf := buf + header;
    buf := buf + payload;
    match p
    case Clear =>
      return Ok(buf);
    case Weak(key) =>
      var rc4 := CfgCipher.FromBytes(key);
      buf := rc4.Crypt(buf);
      return Ok(buf);
    case Strong(key, nonce) =>
      var rc4 := CfgCipher.FromBytes(key);
      buf := rc4.Crypt(CfgCipher.Masked(buf, nonce) + nonce);
      return Ok(buf);
  }

  // ----- Reading -----

  /** The decrypt path of `main`: the record bytes behind the protection that the given keys undo. */
  function Body(raw: seq<byte>, strongKey: Option<seq<byte>>, weakKey: Option<seq<byte>>): Result<seq<byte>, CfgFault> {
    if |raw| < MIN_INPUT then Err(BadInputSize)
    else if raw[..4] == TXT then Err(TextInput)
    else if strongKey.Some? then
      if |raw| < 9 then Err(InputTooSmall) else Ok(CfgCipher.Opened(strongKey.value, raw))
    else
      var body := if weakKey.Some? then CfgCipher.Crypted(CfgCipher.Fresh(weakKey.value), raw) else raw;
      if body[..4] != ATA then Err(UnknownInput) else Ok(body[4..])
  }

  function StrongKey(p: Protection): Option<seq<byte>> {
    if p.Strong? then Some(p.key) else None
  }

  function WeakKey(p: Protection): Option<seq<byte>> {
    if p.Weak? then Some(p.key) else None
  }

  // ----- Round trip -----

  lemma EncodeSnoc(records: seq<Tlv>, last: Tlv)
    ensures EncodeAll(records).Ok? && EncodeTlv(last).Ok? ==>
      EncodeAll(records + [last]) == Ok(EncodeAll(records).value + EncodeTlv(last).value)
  {
    assert (records + [last])[..|records|] == records;
  }

  /** A payload is the encoding of the file's records. */
  lemma PayloadEncodes(w: Wrapping, entries: seq<Entry>, omitSensitive: bool, part: Part, secondName: seq<byte>)
    requires Payload(w, entries, omitSensitive, part, secondName).Ok?
    ensures EncodeAll(FileRecords(w, entries, omitSensitive, part, secondName))
      == Payload(w, entries, omitSensitive, part, secondName)
  {
    hide EncodeTlv, EncodeAll, Selected, WrittenAll;
    var records := WrittenAll(w, Selected(entries, omitSensitive, part));
    EncodeSnoc(records, Pointer(secondName));
    assert records + [] == records;
  }

  /** A header and a payload of records decode to the header's record and then the records. */
  lemma PlainDecodes(records: seq<Tlv>, payload: seq<byte>, strong: bool)
    requires EncodeAll(records) == Ok(payload) && |payload| <= MAX_FORMAT_PAYLOAD_BYTES
    ensures HeaderBlock(payload, strong).Ok?
    ensures Decode(HeaderBlock(payload, strong).value + payload, 0)
      == Decoded([HeaderRecord(payload, strong)] + records, true)
  {
    hide Decode, EncodeAll, SimpleChecksum, CfgChecksum.InternetChecksum, Digits;
    var t := HeaderRecord(payload, strong);
    var header := EncodeTlv(t).value;
    var all := header + payload;
    assert [] + header + payload == all;
    DecodeOne([], t, payload);
    assert header + payload + [] == all;
    DecodeEncoded(header, records, []);
    DecodeEnd(all);
    PrependTwice([t], records, Decode(all, |all|));
    assert [t] + records + [] == [t] + records;
  }

  lemma DecodeEnd(payload: seq<byte>)
    ensures Decode(payload, |payload|) == Decoded([], true)
  {
  }

  lemma HeaderSize(payload: seq<byte>, strong: bool)
    requires HeaderBlock(payload, strong).Ok?
    ensures |HeaderBlock(payload, strong).value| == 7
  {
    hide SimpleChecksum, CfgChecksum.InternetChecksum;
  }

  /** Reading with the same keys undoes every protection, unless the file happens to begin like a text profile. */
  lemma BodyOfFile(payload: seq<byte>, p: Protection, raw: seq<byte>)
    requires p.Strong? ==> |p.nonce| == 8
    requires HeaderBlock(payload, p.Strong?).Ok?
    requires var plain := Plain(payload, p.Strong?).value;
      raw == match p
        case Clear => plain
        case Weak(key) => CfgCipher.Crypted(CfgCipher.Fresh(key), plain)
        case Strong(key, nonce) => CfgCipher.Envelope(key, nonce, plain)
    ensures |raw| >= MIN_INPUT
    ensures Body(raw, StrongKey(p), WeakKey(p)) ==
      if raw[..4] == TXT then Err(TextInput) else Ok(HeaderBlock(payload, p.Strong?).value + payload)
    ensures p.Clear? ==> raw[..4] != TXT
  {
    hide HeaderBlock, CfgCipher.Crypted, CfgCipher.Fresh, CfgCipher.Envelope, CfgCipher.Opened;
    HeaderSize(payload, p.Strong?);
    var header := HeaderBlock(payload, p.Strong?).value;
    var plain := Plain(payload, p.Strong?).value;
    if p.Strong? {
      assert plain == header + payload;
      CfgCipher.EnvelopeOpens(p.key, p.nonce, plain);
    } else {
      assert plain[..4] == ATA && plain[4..] == header + payload;
      assert ATA[1] != TXT[1];
      if p.Weak? {
        CfgCipher.CryptRestores(CfgCipher.Fresh(p.key), plain);
      }
    }
  }

  /**
   Every written file reads back, under the keys it was written with, to its header record, then
   exactly the selected records in order, then the pointer if it is the base file of a split. The one
   exception is an encrypted file whose first four bytes come out as the text marker.
   */
  lemma FileRoundTrip(w: Wrapping, entries: seq<Entry>, omitSensitive: bool, part: Part, secondName: seq<byte>,
    p: Protection)
    requires p.Strong? ==> |p.nonce| == 8
    requires FileBytes(w, entries, omitSensitive, part, secondName, p).Ok?
    ensures var raw := FileBytes(w, entries, omitSensitive, part, secondName, p).value;
      var payload := Payload(w, entries, omitSensitive, part, secondName).value;
      && |payload| <= MAX_FORMAT_PAYLOAD_BYTES && |raw| >= MIN_INPUT
      && (p.Clear? ==> raw[..4] != TXT)
      && (raw[..4] == TXT ==> Body(raw, StrongKey(p), WeakKey(p)) == Err(TextInput))
      && (raw[..4] != TXT ==>
        && Body(raw, StrongKey(p), WeakKey(p)).Ok?
        && Decode(Body(raw, StrongKey(p), WeakKey(p)).value, 0) == Decoded(
          [HeaderRecord(payload, p.Strong?)] + FileRecords(w, entries, omitSensitive, part, secondName), true))
  {
    hide Payload, HeaderRecord, Decode, CfgCipher.Crypted, CfgCipher.Fresh, CfgCipher.Envelope, FileRecords, Body,
      EncodeTlv;
    var payload := Payload(w, entries, omitSensitive, part, secondName).value;
    var raw := FileBytes(w, entries, omitSensitive, part, secondName, p).value;
    PayloadEncodes(w, entries, omitSensitive, part, secondName);
    PlainDecodes(FileRecords(w, entries, omitSensitive, part, secondName), payload, p.Strong?);
    BodyOfFile(payload, p, raw);
  }

  /**
   Exactly which files begin with the text marker: none in the clear; under a weak key those whose
   first four key bytes turn one marker into the other; in the strong envelope those under the nonces
   that begin with four bytes fixed by key and text.
   */
  lemma TextMarkerIff(w: Wrapping, entries: seq<Entry>, omitSensitive: bool, part: Part, secondName: seq<byte>,
    p: Protection)
    requires p.Strong? ==> |p.nonce| == 8
    requires FileBytes(w, entries, omitSensitive, part, secondName, p).Ok?
    ensures var raw := FileBytes(w, entries, omitSensitive, part, secondName, p).value;
      var plain := Plain(Payload(w, entries, omitSensitive, part, secondName).value, p.Strong?).value;
      && |raw| >= 4 && |plain| >= 4
      && (raw[..4] == TXT <==> match p
        case Clear => false
        case Weak(key) => forall k :: 0 <= k < 4 ==> CfgCipher.KeyByteAt(key, k) == XorByte(ATA[k], TXT[k])
        case Strong(key, nonce) => nonce[..4] == CfgCipher.NonceFor(key, plain, TXT))
  {
    hide Payload, HeaderBlock, CfgCipher.Crypted, CfgCipher.Fresh, CfgCipher.Envelope, CfgCipher.KeyByteAt,
      CfgCipher.NonceFor, XorByte;
    var payload := Payload(w, entries, omitSensitive, part, secondName).value;
    var plain := Plain(payload, p.Strong?).value;
    HeaderSize(payload, p.Strong?);
    match p
    case Clear =>
      assert plain[..4] == ATA && ATA[1] != TXT[1];
    case Weak(key) =>
      assert forall k :: 0 <= k < 4 ==> plain[k] == ATA[k];
      CfgCipher.CryptedStarts(key, plain, TXT);
    case Strong(key, nonce) =>
      CfgCipher.EnvelopeOpens(key, nonce, plain);
      CfgCipher.EnvelopeStarts(key, nonce, plain, TXT);
  }

  /** Whatever can be written in the strong envelope has, under every key, a nonce with which it does not read back. */
  lemma TextMarkerHappens(w: Wrapping, entries: seq<Entry>, omitSensitive: bool, part: Part, secondName: seq<byte>,
    p: Protection)
    returns (unlucky: seq<byte>)
    requires p.Strong? && |p.nonce| == 8
    requires FileBytes(w, entries, omitSensitive, part, secondName, p).Ok?
    ensures |unlucky| == 8
    ensures var q := Strong(p.key, unlucky);
      && FileBytes(w, entries, omitSensitive, part, secondName, q).Ok?
      && Body(FileBytes(w, entries, omitSensitive, part, secondName, q).value, Some(p.key), None) == Err(TextInput)
  {
    hide Payload, Plain, CfgCipher.Envelope, CfgCipher.NonceFor, CfgCipher.Opened, XorByte;
    var plain := Plain(Payload(w, entries, omitSensitive, part, secondName).value, true).value;
    TextMarkerIff(w, entries, omitSensitive, part, secondName, p);
    unlucky := CfgCipher.NonceFor(p.key, plain, TXT) + [0, 0, 0, 0];
    var q := Strong(p.key, unlucky);
    assert unlucky[..4] == CfgCipher.NonceFor(p.key, plain, TXT);
    TextMarkerIff(w, entries, omitSensitive, part, secondName, q);
    CfgCipher.EnvelopeOpens(p.key, unlucky, plain);
    HeaderlessSize(Payload(w, entries, omitSensitive, part, secondName).value);
  }

  lemma HeaderlessSize(payload: seq<byte>)
    requires Plain(payload, true).Ok?
    ensures |Plain(payload, true).value| >= 7
  {
    hide HeaderBlock;
    HeaderSize(payload, true);
  }

  // ----- Selection -----

  /** An unsplit file takes every entry, in order, but the sensitive ones when these are omitted. */
  lemma {:induction false} WholeTakesAll(entries: seq<Entry>)
    ensures Selected(entries, false, Whole) == entries
    ensures forall e :: e in Selected(entries, true, Whole) <==> e in entries && !Sensitive(e)
  {
    hide Sensitive, Extended;
    if entries != [] {
      var n := |entries| - 1;
      WholeTakesAll(entries[..n]);
      assert entries == entries[..n] + [entries[n]];
    }
  }

  // ----- The split -----

  /** The entries that are, or are not, extended. */
  function Where(entries: seq<Entry>, extended: bool): seq<Entry> {
    if entries == [] then []
    else
      var n := |entries| - 1;
      var before := Where(entries[..n], extended);
      if Extended(entries[n]) == extended then before + [entries[n]] else before
  }

  /** The two files of a split take complementary, stable subsequences of what the unsplit file takes. */
  lemma {:induction false} SplitPartitions(entries: seq<Entry>, omitSensitive: bool)
    ensures var whole := Selected(entries, omitSensitive, Whole);
      && Selected(entries, omitSensitive, Base) == Where(whole, false)
      && Selected(entries, omitSensitive, Ext) == Where(whole, true)
      && |Where(whole, false)| + |Where(whole, true)| == |whole|
      && multiset(Where(whole, false)) + multiset(Where(whole, true)) == multiset(whole)
  {
    hide Sensitive, Extended;
    if entries != [] {
      var n := |entries| - 1;
      SplitPartitions(entries[..n], omitSensitive);
      if Selects(Whole, omitSensitive, entries[n]) {
        WhereSnoc(Selected(entries[..n], omitSensitive, Whole), entries[n]);
      }
    }
  }

  lemma WhereSnoc(entries: seq<Entry>, last: Entry)
    ensures Where(entries + [last], true) == Where(entries, true) + if Extended(last) then [last] else []
    ensures Where(entries + [last], false) == Where(entries, false) + if Extended(last) then [] else [last]
  {
    assert (entries + [last])[..|entries|] == entries;
  }

  /** The record bytes of the two files add up to the unsplit file's, and both build exactly when it does. */
  lemma {:induction false} SplitAddsUp(w: Wrapping, entries: seq<Entry>, omitSensitive: bool)
    ensures var whole, base, ext := Built(w, entries, omitSensitive, Whole), Built(w, entries, omitSensitive, Base),
      Built(w, entries, omitSensitive, Ext);
      && (whole.Ok? <==> base.Ok? && ext.Ok?)
      && (whole.Ok? ==> |base.value| + |ext.value| == |whole.value|)
  {
    hide Sensitive, Extended, Built, EncodeTlv, Written;
    if entries == [] {
      assert entries[..0] == entries;
      NothingBuilt(w, entries, omitSensitive, Whole);
      NothingBuilt(w, entries, omitSensitive, Base);
      NothingBuilt(w, entries, omitSensitive, Ext);
    } else {
      var n := |entries| - 1;
      assert entries[..n + 1] == entries;
      SplitAddsUp(w, entries[..n], omitSensitive);
      BuiltStep(w, entries, omitSensitive, Whole, n);
      BuiltStep(w, entries, omitSensitive, Base, n);
      BuiltStep(w, entries, omitSensitive, Ext, n);
    }
  }

  // ----- Fields read back -----

  /** The header record carries the checksum that its protection calls for and the payload's length. */
  lemma HeaderReads(payload: seq<byte>, strong: bool)
    requires |payload| <= MAX_FORMAT_PAYLOAD_BYTES
    ensures var value := HeaderRecord(payload, strong).value;
      && |value| == 4 && U16At(value, 2) == |payload|
      && U16At(value, 0) == if strong then CfgChecksum.InternetChecksum(payload) else SimpleChecksum(payload)
  {
    hide Value, Digits, SimpleChecksum, CfgChecksum.InternetChecksum;
    var value := HeaderRecord(payload, strong).value;
    var sum := if strong then CfgChecksum.InternetChecksum(payload) else SimpleChecksum(payload);
    assert value[0..2] == Be16(sum) && value[2..4] == Be16(|payload|);
    HalfWordRoundTrip(sum);
    HalfWordRoundTrip(|payload|);
  }

  /** The wrapped tag's tail decrypts to the value's checksum and the value. */
  lemma WrappedOpens(w: Wrapping, value: seq<byte>)
    ensures w.prefix <= Wrapped(w, value)
    ensures CfgCipher.Crypted(CfgCipher.Fresh(w.key), Wrapped(w, value)[|w.prefix|..])
      == Be16(CfgChecksum.InternetChecksum(value)) + value
  {
    hide CfgCipher.Crypted, CfgCipher.Fresh, CfgChecksum.InternetChecksum;
    var inner := Be16(CfgChecksum.InternetChecksum(value)) + value;
    assert Wrapped(w, value)[|w.prefix|..] == CfgCipher.Crypted(CfgCipher.Fresh(w.key), inner);
    CfgCipher.CryptRestores(CfgCipher.Fresh(w.key), inner);
  }
}
