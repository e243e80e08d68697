/** Profile files as lists of tagged records: firmware/cfgfmt.py writes, splits and reads them. */
module CfgRecords {
  import opened Bytes
  import opened Wrappers
  import CfgChecksum
  import CfgCipher
  import Sorting

  const MAX_VARINT := 0x7FFF
  const MAX_FORMAT_PAYLOAD_BYTES := 0xFFFF
  const MAX_PSEUDO := 0xFF
  const SENSITIVE := 0x4000
  const EXTENDED := 0x8000
  const HEADER_TAG := 0x7FFE
  const LINK_TAG := 0x4000
  const WRAPPED_TAG := 0x1105
  const MIN_INPUT := 5
  const ATA: seq<byte> := [0x23, 0x61, 0x74, 0x61]
  const TXT: seq<byte> := [0x23, 0x74, 0x78, 0x74]

  datatype CfgFault = ValueTooBig | PayloadTooLong | Truncated | BadInputSize | TextInput | InputTooSmall | UnknownInput

  /** A record as it stands in a file. */
  datatype Tlv = Tlv(tag: int, value: seq<byte>)

  // ----- Varints -----

  function EncodeVarint(v: int): Result<seq<byte>, CfgFault> {
    if v < 0 || v > MAX_VARINT then Err(ValueTooBig)
    else if v < 0x80 then Ok([v])
    else Ok([v / 0x100 + 0x80, v % 0x100])
  }

  function DecodeVarint(buf: seq<byte>, pos: nat): (r: Result<(nat, nat), CfgFault>)
    ensures r.Ok? ==> pos < r.value.1 <= |buf|
  {
    if pos >= |buf| then Err(Truncated)
    else if buf[pos] >= 0x80 then
      if pos + 1 >= |buf| then Err(Truncated) else Ok(((buf[pos] as int - 0x80) * 0x100 + buf[pos + 1], pos + 2))
    else Ok((buf[pos], pos + 1))
  }

  lemma VarintRoundTrip(v: int, before: seq<byte>, rest: seq<byte>)
    requires EncodeVarint(v).Ok?
    ensures DecodeVarint(before + EncodeVarint(v).value + rest, |before|)
      == Ok((v, |before| + |EncodeVarint(v).value|))
  {
    var code := EncodeVarint(v).value;
    var buf := before + code + rest;
    assert buf[|before|] == code[0];
    assert v >= 0x80 ==> buf[|before| + 1] == code[1];
  }

  /** The bytes of a varint: one below 0x80, else two, the high one first and marked by its top bit. */
  lemma VarintBytes(v: int)
    ensures EncodeVarint(v).Ok? <==> 0 <= v < 0x8000
    ensures 0 <= v < 0x80 ==> EncodeVarint(v) == Ok([v])
    ensures 0x80 <= v < 0x8000 ==>
      var code := EncodeVarint(v).value;
      |code| == 2 && 0x80 <= code[0] && 0x100 * (code[0] as int - 0x80) + code[1] == v
  {
  }

  // ----- Profiles -----

  datatype Entry = Entry(tag: int, fmt: nat, value: seq<byte>)

  /** What a profile keeps for a small tag. */
  datatype Small = Small(fmt: nat, value: seq<byte>)

  /** `fmt & 0x4000` and `fmt & 0x8000`. */
  predicate Sensitive(e: Entry) {
    e.fmt / SENSITIVE % 2 == 1
  }

  predicate Extended(e: Entry) {
    e.fmt / EXTENDED % 2 == 1
  }

  /** The two flags are bits 14 and 15 of the format. */
  lemma FlagBits(e: Entry)
    ensures Sensitive(e) <==> e.fmt % 0x8000 >= 0x4000
    ensures Extended(e) <==> e.fmt % 0x1_0000 >= 0x8000
  {
    Bit14(e.fmt);
    Bit15(e.fmt);
  }

  lemma Bit14(x: nat)
    ensures x / 0x4000 % 2 == 1 <==> x % 0x8000 >= 0x4000
  {
    var q := x / 0x4000;
    assert x == 0x4000 * q + x % 0x4000 && q == 2 * (q / 2) + q % 2;
    CfgCipher.Exact(x, q / 2, 0x8000, 0x4000 * (q % 2) + x % 0x4000);
  }

  lemma Bit15(x: nat)
    ensures x / 0x8000 % 2 == 1 <==> x % 0x1_0000 >= 0x8000
  {
    var q := x / 0x8000;
    assert x == 0x8000 * q + x % 0x8000 && q == 2 * (q / 2) + q % 2;
    CfgCipher.Exact(x, q / 2, 0x1_0000, 0x8000 * (q % 2) + x % 0x8000);
  }

  /** The loop of `_store_pseudo` as a search: where the tag stands, or the end of the list. */
  function IndexOfTag(entries: seq<Entry>, tag: int): (i: nat)
    ensures i <= |entries| && (i < |entries| ==> entries[i].tag == tag)
    ensures forall k :: 0 <= k < i ==> entries[k].tag != tag
  {
    if entries == [] then 0
    else if entries[0].tag == tag then 0
    else
      assert forall k :: 0 < k < |entries| ==> entries[k] == entries[1..][k - 1];
      1 + IndexOfTag(entries[1..], tag)
  }

  /** A parsed profile: the small tags, and the pseudo tags in order of insertion. */
  class Profile {
    var small: map<int, Small>
    var pseudo: seq<Entry>

    /** No tag is stored twice, there are at most 255 pseudo tags, and small tags are small. */
    ghost predicate Valid()
      reads this
    {
      && |pseudo| <= MAX_PSEUDO
      && (forall i, j :: 0 <= i < j < |pseudo| ==> pseudo[i].tag != pseudo[j].tag)
      && (forall t :: t in small ==> t < 0xFF)
    }

    constructor ()
      ensures Valid() && small == map[] && pseudo == []
    {
      small, pseudo := map[], [];
    }

    /** `profile.small[entry.tag] = ...`: one more store. */
    method StoreSmall(tag: int, fmt: nat, value: seq<byte>)
      requires Valid() && tag < 0xFF
      modifies this
      ensures Valid() && pseudo == old(pseudo) && small == old(small)[tag := Small(fmt, value)]
      ensures forall stores :: old(small) == SmallAfter(stores) ==>
        small == SmallAfter(stores + [Entry(tag, fmt, value)])
    {
      small := small[tag := Small(fmt, value)];
      assert forall stores: seq<Entry>, e: Entry :: (stores + [e])[..|stores|] == stores;
    }

    /** `_store_pseudo`: replaces in place, or appends while there is room. */
    method StorePseudo(tag: int, fmt: nat, value: seq<byte>) returns (stored: bool)
      requires Valid()
      modifies this
      ensures Valid() && small == old(small)
      ensures stored <==> IndexOfTag(old(pseudo), tag) < |old(pseudo)| || |old(pseudo)| < MAX_PSEUDO
      ensures var at, e := IndexOfTag(old(pseudo), tag), Entry(tag, fmt, value);
        pseudo == if at < |old(pseudo)| then old(pseudo)[at := e] else if stored then old(pseudo) + [e] else old(pseudo)
    {
      ghost var was := pseudo;
      ghost var at := IndexOfTag(was, tag);
      for i := 0 to |pseudo|
        invariant pseudo == was && i <= at
      {
        if pseudo[i].tag == tag {
          pseudo := pseudo[i := Entry(tag, fmt, value)];
          return true;
        }
      }
      if |pseudo| >= MAX_PSEUDO {
        return false;
      }
      pseudo := pseudo + [Entry(tag, fmt, value)];
      return true;
    }

    /** Every entry, in the order in which records are written. */
    ghost function Entries(): seq<Entry>
      reads this
    {
      AllEntries(pseudo, small)
    }
  }

  function SmallEntry(small: map<int, Small>, tag: int): Entry
    requires tag in small
  {
    Entry(tag, small[tag].fmt, small[tag].value)
  }

  function SmallEntries(small: map<int, Small>, tags: seq<int>): (r: seq<Entry>)
    requires forall t :: t in tags ==> t in small
    ensures |r| == |tags| && forall i :: 0 <= i < |tags| ==> r[i] == SmallEntry(small, tags[i])
  {
    if tags == [] then []
    else
      assert forall t :: t in tags[..|tags| - 1] ==> t in tags;
      SmallEntries(small, tags[..|tags| - 1]) + [SmallEntry(small, tags[|tags| - 1])]
  }

  /** `sorted(profile.small)`. */
  function SortedTags(small: map<int, Small>): (tags: seq<int>)
    ensures forall t :: t in tags <==> t in small
    ensures forall i, j :: 0 <= i < j < |tags| ==> tags[i] < tags[j]
  {
    Sorting.Ascending(small.Keys)
  }

  function AllEntries(pseudo: seq<Entry>, small: map<int, Small>): seq<Entry> {
    pseudo + SmallEntries(small, SortedTags(small))
  }

  /** The small tags after a series of stores. */
  function SmallAfter(stores: seq<Entry>): map<int, Small> {
    if stores == [] then map[]
    else
      var last := stores[|stores| - 1];
      SmallAfter(stores[..|stores| - 1])[last.tag := Small(last.fmt, last.value)]
  }

  /** No later store has the same tag. */
  predicate LastOfTag(stores: seq<Entry>, i: nat) {
    i < |stores| && forall j :: i < j < |stores| ==> stores[j].tag != stores[i].tag
  }

  lemma {:induction false} LastStoreWins(stores: seq<Entry>, e: Entry)
    ensures e.tag in SmallAfter(stores) && SmallEntry(SmallAfter(stores), e.tag) == e
      <==> exists i: nat :: LastOfTag(stores, i) && stores[i] == e
  {
    if stores != [] {
      var n := |stores| - 1;
      LastStoreWins(stores[..n], e);
      assert LastOfTag(stores, n);
      if e.tag == stores[n].tag {
        forall i: nat | LastOfTag(stores, i) && stores[i] == e
          ensures i == n
        {
        }
      } else {
        forall i: nat
          ensures LastOfTag(stores, i) && stores[i] == e <==> LastOfTag(stores[..n], i) && stores[..n][i] == e
        {
          EarlierLast(stores, i, e);
        }
      }
    }
  }

  lemma EarlierLast(stores: seq<Entry>, i: nat, e: Entry)
    requires stores != [] && e.tag != stores[|stores| - 1].tag
    ensures var before := stores[..|stores| - 1];
      LastOfTag(stores, i) && stores[i] == e <==> LastOfTag(before, i) && before[i] == e
  {
    var n := |stores| - 1;
    assert forall j :: 0 <= j < n ==> stores[..n][j] == stores[j];
  }

  /**
   Whatever was stored in whatever order, the small records are written by strictly rising tag, and
   they are exactly the last stores of their tags.
   */
  lemma SmallRecords(stores: seq<Entry>)
    ensures var small := SmallAfter(stores);
      var written := SmallEntries(small, SortedTags(small));
      && (forall i, j :: 0 <= i < j < |written| ==> written[i].tag < written[j].tag)
      && forall e :: e in written <==> exists i: nat :: LastOfTag(stores, i) && stores[i] == e
  {
    hide SmallEntries, SortedTags, SmallAfter;
    var small := SmallAfter(stores);
    var tags := SortedTags(small);
    var written := SmallEntries(small, tags);
    forall e
      ensures e in written <==> exists i: nat :: LastOfTag(stores, i) && stores[i] == e
    {
      LastStoreWins(stores, e);
      if e.tag in small && SmallEntry(small, e.tag) == e {
        var k :| 0 <= k < |tags| && tags[k] == e.tag;
        assert written[k] == e;
      }
    }
  }

  // ----- Which records a file gets -----

  /** One output file: unsplit, the base file of a split, or the extended one. */
  datatype Part = Whole | Base | Ext

  predicate Selects(part: Part, omitSensitive: bool, e: Entry) {
    && !(omitSensitive && Sensitive(e))
    && (part == Base ==> !Extended(e))
    && (part == Ext ==> Extended(e))
  }

  function Selected(entries: seq<Entry>, omitSensitive: bool, part: Part): seq<Entry> {
    if entries == [] then []
    else
      var n := |entries| - 1;
      var before := Selected(entries[..n], omitSensitive, part);
      if Selects(part, omitSensitive, entries[n]) then before + [entries[n]] else before
  }

  /** The fixed material that wraps tag 0x1105. */
  datatype Wrapping = Wrapping(prefix: seq<byte>, key: seq<byte>)

  /** `_wrap_1105`. */
  function Wrapped(w: Wrapping, value: seq<byte>): seq<byte> {
    w.prefix + CfgCipher.Crypted(CfgCipher.Fresh(w.key), Be16(CfgChecksum.InternetChecksum(value)) + value)
  }

  /** What stands in the file for an entry. */
  function Written(w: Wrapping, e: Entry): Tlv {
    Tlv(e.tag, if e.tag == WRAPPED_TAG then Wrapped(w, e.value) else e.value)
  }

  function WrittenAll(w: Wrapping, entries: seq<Entry>): (r: seq<Tlv>)
    ensures |r| == |entries|
  {
    seq(|entries|, i requires 0 <= i < |entries| => Written(w, entries[i]))
  }

  // ----- Encoding -----

  function EncodeTlv(t: Tlv): Result<seq<byte>, CfgFault> {
    var tag :- EncodeVarint(t.tag);
    var size :- EncodeVarint(|t.value|);
    Ok(tag + size + t.value)
  }

  function EncodeAll(records: seq<Tlv>): Result<seq<byte>, CfgFault> {
    if records == [] then Ok([])
    else
      var before :- EncodeAll(records[..|records| - 1]);
      var last :- EncodeTlv(records[|records| - 1]);
      Ok(before + last)
  }

  /** The body that the two loops of `build_records` share. */
  method AddRecord(out: seq<byte>, w: Wrapping, e: Entry, omitSensitive: bool, part: Part)
    returns (r: Result<seq<byte>, CfgFault>)
    ensures r == Added(out, w, e, omitSensitive, part)
  {
    hide Sensitive, Extended, EncodeVarint, CfgCipher.Crypted, CfgCipher.Fresh;
    if omitSensitive && Sensitive(e) {
      return Ok(out);
    }
    if part != Whole {
      if part != Ext && Extended(e) {
        return Ok(out);
      }
      if part == Ext && !Extended(e) {
        return Ok(out);
      }
    }
    var value := e.value;
    if e.tag == WRAPPED_TAG {
      value := Wrapped(w, e.value);
    }
    var tag :- EncodeVarint(e.tag);
    var size :- EncodeVarint(|value|);
    return Ok(out + (tag + size + value));
  }

  function Added(out: seq<byte>, w: Wrapping, e: Entry, omitSensitive: bool, part: Part): Result<seq<byte>, CfgFault> {
    if !Selects(part, omitSensitive, e) then Ok(out)
    else
      var record :- EncodeTlv(Written(w, e));
      Ok(out + record)
  }

  /** The bytes of the selected records among the first `i` entries. */
  function Built(w: Wrapping, all: seq<Entry>, omitSensitive: bool, part: Part): Result<seq<byte>, CfgFault> {
    EncodeAll(WrittenAll(w, Selected(all, omitSensitive, part)))
  }

  /** `build_records`: two loops over the profile, filtering and encoding. */
  method BuildRecords(profile: Profile, w: Wrapping, omitSensitive: bool, part: Part)
    returns (r: Result<seq<byte>, CfgFault>)
    requires profile.Valid()
    ensures r == Built(w, profile.Entries(), omitSensitive, part)
  {
    hide Added, Built, SortedTags, SmallEntries;
    var out: seq<byte> := [];
    var pseudo, tags := profile.pseudo, SortedTags(profile.small);
    ghost var all := profile.Entries();
    NothingBuilt(w, all, omitSensitive, part);
    for i := 0 to |pseudo|
      invariant Built(w, all[..i], omitSensitive, part) == Ok(out)
    {
      assert all[i] == pseudo[i];
      BuiltStep(w, all, omitSensitive, part, i);
      var added := AddRecord(out, w, pseudo[i], omitSensitive, part);
      if added.Err? {
        FirstFault(w, all, omitSensitive, part, i + 1);
        return added;
      }
      out := added.value;
    }
    for k := 0 to |tags|
      invariant Built(w, all[..|pseudo| + k], omitSensitive, part) == Ok(out)
    {
      assert all[|pseudo| + k] == SmallEntry(profile.small, tags[k]);
      BuiltStep(w, all, omitSensitive, part, |pseudo| + k);
      var added := AddRecord(out, w, SmallEntry(profile.small, tags[k]), omitSensitive, part);
      if added.Err? {
        FirstFault(w, all, omitSensitive, part, |pseudo| + k + 1);
        return added;
      }
      out := added.value;
    }
    assert all[..|all|] == all;
    return Ok(out);
  }

  lemma NothingBuilt(w: Wrapping, all: seq<Entry>, omitSensitive: bool, part: Part)
    ensures Built(w, all[..0], omitSensitive, part) == Ok([])
  {
    assert WrittenAll(w, []) == [];
  }

  lemma BuiltStep(w: Wrapping, all: seq<Entry>, omitSensitive: bool, part: Part, i: nat)
    requires i < |all|
    ensures var before, after := Built(w, all[..i], omitSensitive, part), Built(w, all[..i + 1], omitSensitive, part);
      && (before.Err? ==> after == before)
      && (before.Ok? ==> after == Added(before.value, w, all[i], omitSensitive, part))
  {
    hide Written, EncodeTlv, Selects;
    assert all[..i + 1][..i] == all[..i];
    var before := Selected(all[..i], omitSensitive, part);
    if Selects(part, omitSensitive, all[i]) {
      WrittenSnoc(w, before, all[i]);
      assert (WrittenAll(w, before) + [Written(w, all[i])])[..|before|] == WrittenAll(w, before);
    }
  }

  lemma WrittenSnoc(w: Wrapping, entries: seq<Entry>, last: Entry)
    ensures WrittenAll(w, entries + [last]) == WrittenAll(w, entries) + [Written(w, last)]
  {
    hide Written;
  }

  /** A failure stops the build. */
  lemma {:induction false} FirstFault(w: Wrapping, all: seq<Entry>, omitSensitive: bool, part: Part, i: nat)
    requires i <= |all| && Built(w, all[..i], omitSensitive, part).Err?
    ensures Built(w, all, omitSensitive, part) == Built(w, all[..i], omitSensitive, part)
    decreases |all| - i
  {
    hide Built, Added;
    if i == |all| {
      assert all[..i] == all;
    } else {
      BuiltStep(w, all, omitSensitive, part, i);
      FirstFault(w, all, omitSensitive, part, i + 1);
    }
  }

  // ----- Decoding -----

  /** What the record loop finds: the records, and whether it came to the end of the payload. */
  datatype Decoded = Decoded(records: seq<Tlv>, complete: bool)

  function Prepend(records: seq<Tlv>, d: Decoded): Decoded {
    Decoded(records + d.records, d.complete)
  }

  /** The record loop of `binary_to_text` from `pos` on. */
  function Decode(payload: seq<byte>, pos: nat): Decoded
    requires pos <= |payload|
    decreases |payload| - pos
  {
    if pos == |payload| then Decoded([], true)
    else match DecodeVarint(payload, pos)
      case Err(_) => Decoded([], false)
      case Ok((tag, afterTag)) =>
        match DecodeVarint(payload, afterTag)
        case Err(_) => Decoded([], false)
        case Ok((size, start)) =>
          if start + size > |payload| then Decoded([], false)
          else Prepend([Tlv(tag, payload[start..start + size])], Decode(payload, start + size))
  }

  /** The loop itself. */
  method DecodeRecords(payload: seq<byte>) returns (d: Decoded)
    ensures d == Decode(payload, 0)
  {
    hide DecodeVarint;
    var records: seq<Tlv> := [];
    var pos := 0;
    assert Decode(payload, 0) == Prepend([], Decode(payload, 0));
    while true
      invariant pos <= |payload|
      invariant Decode(payload, 0) == Prepend(records, Decode(payload, pos))
      decreases |payload| - pos
    {
      if |payload| - pos < 1 {
        return Decoded(records, true);
      }
      var tag := DecodeVarint(payload, pos);
      if tag.Err? {
        break;
      }
      var size := DecodeVarint(payload, tag.value.1);
      if size.Err? {
        break;
      }
      var start := size.value.1;
      if start + size.value.0 > |payload| {
        break;
      }
      var next := start + size.value.0;
      var one := [Tlv(tag.value.0, payload[start..next])];
      PrependTwice(records, one, Decode(payload, next));
      records := records + one;
      pos := next;
    }
    return Decoded(records, false);
  }

  lemma PrependTwice(a: seq<Tlv>, b: seq<Tlv>, d: Decoded)
    ensures Prepend(a, Prepend(b, d)) == Prepend(a + b, d)
  {
    assert a + (b + d.records) == (a + b) + d.records;
  }

  lemma DecodeStep(payload: seq<byte>, pos: nat, tag: nat, afterTag: nat, size: nat, start: nat)
    requires pos < |payload| && DecodeVarint(payload, pos) == Ok((tag, afterTag))
    requires DecodeVarint(payload, afterTag) == Ok((size, start)) && start + size <= |payload|
    ensures Decode(payload, pos) == Prepend([Tlv(tag, payload[start..start + size])], Decode(payload, start + size))
  {
    hide DecodeVarint;
  }

  lemma DecodeOne(before: seq<byte>, t: Tlv, rest: seq<byte>)
    requires EncodeTlv(t).Ok?
    ensures var payload := before + EncodeTlv(t).value + rest;
      Decode(payload, |before|) == Prepend([t], Decode(payload, |before| + |EncodeTlv(t).value|))
  {
    hide DecodeVarint, Decode, EncodeVarint;
    var tag, size := EncodeVarint(t.tag).value, EncodeVarint(|t.value|).value;
    var payload := before + EncodeTlv(t).value + rest;
    assert payload == before + tag + (size + t.value + rest);
    VarintRoundTrip(t.tag, before, size + t.value + rest);
    assert payload == (before + tag) + size + (t.value + rest);
    VarintRoundTrip(|t.value|, before + tag, t.value + rest);
    var start := |before| + |tag| + |size|;
    assert payload[start..start + |t.value|] == t.value;
    DecodeStep(payload, |before|, t.tag, |before| + |tag|, |t.value|, start);
  }

  /** Decoding written records gives them back, and then whatever follows them. */
  lemma {:induction false} DecodeEncoded(before: seq<byte>, records: seq<Tlv>, rest: seq<byte>)
    requires EncodeAll(records).Ok?
    ensures var payload := before + EncodeAll(records).value + rest;
      Decode(payload, |before|) == Prepend(records, Decode(payload, |before| + |EncodeAll(records).value|))
  {
    hide EncodeTlv, Decode;
    if records == [] {
      assert before + [] + rest == before + rest;
    } else {
      var n := |records| - 1;
      var front, last := EncodeAll(records[..n]).value, EncodeTlv(records[n]).value;
      var payload := before + EncodeAll(records).value + rest;
      assert payload == before + front + (last + rest);
      DecodeEncoded(before, records[..n], last + rest);
      assert payload == (before + front) + last + rest;
      DecodeOne(before + front, records[n], rest);
      assert records == records[..n] + [records[n]];
      PrependTwice(records[..n], [records[n]], Decode(payload, |before| + |front| + |last|));
    }
  }

  // ----- Truncation -----

  lemma CutVarint(v: int, before: seq<byte>, n: nat)
    requires EncodeVarint(v).Ok? && n < |EncodeVarint(v).value|
    ensures DecodeVarint(before + EncodeVarint(v).value[..n], |before|).Err?
  {
    var code := EncodeVarint(v).value;
    var buf := before + code[..n];
    assert n == 1 ==> buf[|before|] == code[0];
  }

  lemma CutParts(a: seq<byte>, b: seq<byte>, c: seq<byte>, n: nat)
    requires n <= |a| + |b| + |c|
    ensures n <= |a| ==> (a + b + c)[..n] == a[..n]
    ensures |a| <= n <= |a| + |b| ==> (a + b + c)[..n] == a + b[..n - |a|]
    ensures |a| + |b| <= n ==> (a + b + c)[..n] == a + b + c[..n - |a| - |b|]
  {
  }

  /** What a record that breaks off at `pos` decodes to. */
  lemma BrokenOff(buf: seq<byte>, pos: nat, tag: nat, afterTag: nat)
    requires pos < |buf| && DecodeVarint(buf, pos) == Ok((tag, afterTag))
    ensures DecodeVarint(buf, afterTag).Err? ==> Decode(buf, pos) == Decoded([], false)
    ensures var size := DecodeVarint(buf, afterTag);
      size.Ok? && size.value.1 + size.value.0 > |buf| ==> Decode(buf, pos) == Decoded([], false)
  {
    hide DecodeVarint;
  }

  lemma CutInSize(before: seq<byte>, tag: int, size: int, k: nat)
    requires EncodeVarint(tag).Ok? && EncodeVarint(size).Ok? && k < |EncodeVarint(size).value|
    ensures Decode(before + (EncodeVarint(tag).value + EncodeVarint(size).value[..k]), |before|) == Decoded([], false)
  {
    hide DecodeVarint, EncodeVarint, Decode;
    var code, cut := EncodeVarint(tag).value, EncodeVarint(size).value[..k];
    Associate(before, code, cut);
    VarintRoundTrip(tag, before, cut);
    CutVarint(size, before + code, k);
    BrokenOff(before + code + cut, |before|, tag, |before + code|);
  }

  lemma Associate(a: seq<byte>, b: seq<byte>, c: seq<byte>)
    ensures a + (b + c) == a + b + c
  {
  }

  lemma CutInValue(before: seq<byte>, tag: int, size: nat, rest: seq<byte>)
    requires EncodeVarint(tag).Ok? && EncodeVarint(size).Ok? && |rest| < size
    ensures Decode(before + (EncodeVarint(tag).value + EncodeVarint(size).value + rest), |before|) == Decoded([], false)
  {
    hide DecodeVarint, EncodeVarint, Decode;
    var a, b := EncodeVarint(tag).value, EncodeVarint(size).value;
    Associate(before, a + b, rest);
    Associate(before, a, b);
    Associate(before + a, b, rest);
    VarintRoundTrip(tag, before, b + rest);
    VarintRoundTrip(size, before + a, rest);
    BrokenOff(before + a + b + rest, |before|, tag, |before + a|);
  }

  /** Part of a record, but not all of it, does not decode. */
  lemma CutRecord(before: seq<byte>, t: Tlv, n: nat)
    requires EncodeTlv(t).Ok? && 0 < n < |EncodeTlv(t).value|
    ensures Decode(before + EncodeTlv(t).value[..n], |before|) == Decoded([], false)
  {
    hide DecodeVarint, EncodeVarint;
    var tag, size := EncodeVarint(t.tag).value, EncodeVarint(|t.value|).value;
    CutParts(tag, size, t.value, n);
    if n < |tag| {
      CutVarint(t.tag, before, n);
      assert tag[..n] != [];
    } else if n < |tag| + |size| {
      CutInSize(before, t.tag, |t.value|, n - |tag|);
    } else {
      CutInValue(before, t.tag, |t.value|, t.value[..n - |tag| - |size|]);
    }
  }

  /** A file of records that is cut inside its last one decodes to the ones before it and is reported as corrupt. */
  lemma TruncationReported(records: seq<Tlv>, last: Tlv, n: nat)
    requires EncodeAll(records).Ok? && EncodeTlv(last).Ok? && 0 < n < |EncodeTlv(last).value|
    ensures Decode(EncodeAll(records).value + EncodeTlv(last).value[..n], 0) == Decoded(records, false)
  {
    hide Decode, EncodeAll, EncodeTlv;
    var all, cut := EncodeAll(records).value, EncodeTlv(last).value[..n];
    DecodeEncoded([], records, cut);
    assert [] + all + cut == all + cut && [] + all == all;
    CutRecord(all, last, n);
  }
}
