/** The served image and its packets: firmware/sata186us.py and its client firmware/ata_upgrade_client.py. */
module FirmwareBlocks {
  import opened Bytes
  import opened Wrappers
  import opened Codec
  import ZupBank

  const BLOCK_SIZE := 0x400
  const MAX_IMAGE_BYTES := 0x80000
  const IMAGE_HEADER := 24
  const MAX_SERVER_DATAGRAM := 2048
  const MAX_KBOX_DATA := 256
  const KBOX: seq<byte> := [0x6B, 0x62, 0x6F, 0x78]
  const KBOX_VERSION := 1
  const KBOX_RESPONSE := 0x102
  const URL_BYTES := 0x80

  datatype ServiceFault =
    | ImageSize | Envelope | Corrupted | BadPackage(fault: ZupBank.Fault)
    | RequestLength | RequestChecksum | BlockSizeField | UrlTooLong

  /** `cksum`: the byte sum in 32 bits. */
  function Cksum(data: seq<byte>): u32 {
    Sum(data) % TWO32
  }

  // ----- The store -----

  /** The zero-padded payload, its exact length and how many blocks it has. */
  datatype BlockStore = BlockStore(data: seq<byte>, total: nat, sums: seq<u32>)

  /** `check_image`. */
  function CheckImage(payload: seq<byte>): Option<ServiceFault> {
    if |payload| >= 12 && payload[..4] == ZupBank.KXZ then
      if U32At(payload, 4) != Cksum(payload[12..]) then Some(Corrupted) else None
    else if |payload| >= 24 && payload[..3] == [0x2B, 0x6B, 0x62] && payload[3] in {0x7A, 0x78} then
      if U32At(payload, 8) != Cksum(payload[24..]) then Some(Corrupted) else None
    else Some(Envelope)
  }

  function Blocks(total: nat): nat {
    (total + BLOCK_SIZE - 1) / BLOCK_SIZE
  }

  /** The payload in whole blocks. */
  function Padded(payload: seq<byte>): (data: seq<byte>)
    ensures |data| == Blocks(|payload|) * BLOCK_SIZE && payload <= data
  {
    payload + Zeros(Blocks(|payload|) * BLOCK_SIZE - |payload|)
  }

  function Sums(data: seq<byte>, n: nat): (s: seq<u32>)
    requires n * BLOCK_SIZE <= |data|
    ensures |s| == n
  {
    seq(n, i requires 0 <= i < n => Cksum(data[i * BLOCK_SIZE..(i + 1) * BLOCK_SIZE]))
  }

  lemma CheckedSize(payload: seq<byte>)
    ensures CheckImage(payload) == None ==> |payload| >= 12
  {
  }

  /** `make_block_store` on a whole image file; a `+kxz` package must also reconstruct. */
  method MakeBlockStore(c: Codec, raw: seq<byte>) returns (r: Result<BlockStore, ServiceFault>)
    ensures |raw| > MAX_IMAGE_BYTES ==> r == Err(ImageSize)
    ensures r.Ok? ==> |raw| > IMAGE_HEADER && CheckImage(raw[IMAGE_HEADER..]) == None
    ensures r.Ok? ==>
      var payload := raw[IMAGE_HEADER..];
      && (payload[..4] == ZupBank.KXZ ==> ZupBank.Reconstruction(c, raw).Ok?)
      && r.value == BlockStore(Padded(payload), |payload|, Sums(Padded(payload), Blocks(|payload|)))
    ensures |raw| <= MAX_IMAGE_BYTES && r.Err? ==>
      var payload := if |raw| < IMAGE_HEADER then [] else raw[IMAGE_HEADER..];
      CheckImage(payload).Some? || (payload[..4] == ZupBank.KXZ && ZupBank.Reconstruction(c, raw).Err?)
  {
    hide Cksum, U32At, ZupBank.Reconstruction, CheckImage, Sums;
    if |raw| > MAX_IMAGE_BYTES {
      return Err(ImageSize);
    }
    var payload := if |raw| < IMAGE_HEADER then [] else raw[IMAGE_HEADER..];
    CheckedSize(payload);
    var fault := CheckImage(payload);
    if fault.Some? {
      return Err(fault.value);
    }
    if payload[..4] == ZupBank.KXZ {
      var built := ZupBank.BuildBank(c, raw);
      if built.Err? {
        return Err(BadPackage(built.fault));
      }
    }
    var total := |payload|;
    var paddedLength := (total + 0x3FF) / 0x400 * 0x400;
    var data := payload + Zeros(paddedLength - total);
    assert data == Padded(payload);
    var sums := SumBlocks(data);
    if total % BLOCK_SIZE == 0 {
      sums := sums[..total / BLOCK_SIZE];
    }
    return Ok(BlockStore(data, total, sums));
  }

  /** The loop of `make_block_store` over the padded payload. */
  method SumBlocks(data: seq<byte>) returns (sums: seq<u32>)
    requires |data| % BLOCK_SIZE == 0
    ensures sums == Sums(data, |data| / BLOCK_SIZE)
  {
    hide Cksum;
    sums := [];
    var i := 0;
    while i < |data|
      invariant i == |sums| * BLOCK_SIZE <= |data|
      invariant sums == Sums(data, |sums|)
      decreases |data| - i
    {
      assert (|sums| + 1) * BLOCK_SIZE <= |data|;
      sums := sums + [Cksum(data[i..i + BLOCK_SIZE])];
      i := i + BLOCK_SIZE;
    }
  }

  /** A store made from some payload. */
  ghost predicate StoreOf(store: BlockStore, payload: seq<byte>) {
    && 0 < |payload| <= MAX_IMAGE_BYTES
    && store == BlockStore(Padded(payload), |payload|, Sums(Padded(payload), Blocks(|payload|)))
  }

  // ----- Replies and requests -----

  function Summed(body: seq<byte>): (packet: seq<byte>)
    ensures |packet| == |body| + 4
  {
    Be32(Cksum(body)) + body
  }

  /** `build_hello`. */
  function BuildHello(store: BlockStore): (packet: seq<byte>)
    requires store.total < TWO32
    ensures |packet| == 12
  {
    Summed(Be32(store.total) + Be16(0) + Be16(BLOCK_SIZE))
  }

  /** The slice of the data that a block reply carries, as Python cuts it. */
  function BlockData(store: BlockStore, index: nat): (data: seq<byte>)
    ensures |data| <= BLOCK_SIZE
  {
    if index * BLOCK_SIZE >= |store.data| then []
    else if (index + 1) * BLOCK_SIZE > |store.data| then store.data[index * BLOCK_SIZE..]
    else store.data[index * BLOCK_SIZE..(index + 1) * BLOCK_SIZE]
  }

  /** `build_block`. */
  function BuildBlock(store: BlockStore, index: nat): (packet: seq<byte>)
    ensures |packet| == 8 + BLOCK_SIZE
  {
    var data := BlockData(store, index);
    Summed(Be16(index % TWO16) + Be16(BLOCK_SIZE) + data + Zeros(BLOCK_SIZE - |data|))
  }

  /** `build_kbox_response`. */
  function BuildKboxResponse(url: seq<byte>): (r: Result<seq<byte>, ServiceFault>)
    ensures r.Ok? ==> |r.value| == 144
  {
    if |url| >= URL_BYTES then Err(UrlTooLong)
    else
      var area := url + Zeros(URL_BYTES - |url|);
      Ok(KBOX + Be32(KBOX_RESPONSE) + [0, 0, 0, 0] + Be32(Cksum(area)) + area)
  }

  /** `parse_data_request`: a block index, or nothing for the stream hello. */
  function ParseDataRequest(packet: seq<byte>): Result<Option<u16>, ServiceFault> {
    if |packet| < 12 || |packet| > MAX_SERVER_DATAGRAM then Err(RequestLength)
    else if U32At(packet, 0) != Cksum(packet[4..12]) then Err(RequestChecksum)
    else
      var index, size := U16At(packet, 8), U16At(packet, 10);
      if size == 0 then Ok(None) else if size != BLOCK_SIZE then Err(BlockSizeField) else Ok(Some(index))
  }

  /** The client's request for one block. */
  function BlockRequest(index: u16): seq<byte> {
    Summed(Be32(0) + Be16(index) + Be16(BLOCK_SIZE))
  }

  // ----- Transfer -----

  /** A reply's checksum is the sum of the rest of it. */
  predicate ValidReply(packet: seq<byte>) {
    |packet| >= 4 && U32At(packet, 0) == Cksum(packet[4..])
  }

  lemma SummedValid(body: seq<byte>)
    ensures ValidReply(Summed(body)) && Summed(body)[4..] == body
  {
    hide Cksum, Value, Digits;
    var packet := Summed(body);
    assert packet[0..4] == Be32(Cksum(body)) && packet[4..] == body;
    WordRoundTrip(Cksum(body));
  }

  /** The server reads back the index that the client asks for. */
  lemma RequestRoundTrip(index: u16)
    ensures ParseDataRequest(BlockRequest(index)) == Ok(Some(index))
  {
    hide Cksum, Value, Digits;
    var body := Be32(0) + Be16(index) + Be16(BLOCK_SIZE);
    var packet := BlockRequest(index);
    SummedValid(body);
    assert packet[4..12] == packet[4..] == body;
    assert packet[8..10] == body[4..6] == Be16(index);
    assert packet[10..12] == body[6..8] == Be16(BLOCK_SIZE);
    HalfWordRoundTrip(index);
    HalfWordRoundTrip(BLOCK_SIZE);
  }

  /** What the client keeps of a block reply. */
  function Kept(total: nat, reply: seq<byte>, index: nat): seq<byte>
    requires |reply| == 8 + BLOCK_SIZE && index * BLOCK_SIZE <= total
  {
    var left := total - index * BLOCK_SIZE;
    reply[8..8 + if left < BLOCK_SIZE then left else BLOCK_SIZE]
  }

  /** What the client has after the first `n` replies. */
  function Received(store: BlockStore, n: nat): seq<byte>
    requires n <= Blocks(store.total)
  {
    if n == 0 then [] else Received(store, n - 1) + Kept(store.total, BuildBlock(store, n - 1), n - 1)
  }

  /** A block reply names its block, carries it whole and has a valid checksum. */
  lemma BlockReply(store: BlockStore, payload: seq<byte>, index: nat)
    requires StoreOf(store, payload) && index < |store.sums|
    ensures var reply := BuildBlock(store, index);
      && ValidReply(reply) && U16At(reply, 4) == index && U16At(reply, 6) == BLOCK_SIZE
      && reply[8..] == store.data[index * BLOCK_SIZE..(index + 1) * BLOCK_SIZE]
      && Cksum(reply[8..]) == store.sums[index]
  {
    hide Cksum, Value, Digits, Padded;
    var data := BlockData(store, index);
    var body := Be16(index) + Be16(BLOCK_SIZE) + data + Zeros(BLOCK_SIZE - |data|);
    var reply := BuildBlock(store, index);
    assert index < 512;
    assert (index + 1) * BLOCK_SIZE <= |store.data|;
    SummedValid(body);
    assert reply == Summed(body);
    assert reply[8..] == reply[4..][4..] == data;
    assert reply[4..6] == body[0..2] == Be16(index);
    assert reply[6..8] == body[2..4] == Be16(BLOCK_SIZE);
    HalfWordRoundTrip(index);
    HalfWordRoundTrip(BLOCK_SIZE);
  }

  lemma {:induction false} ReceivedFront(store: BlockStore, payload: seq<byte>, n: nat)
    requires StoreOf(store, payload) && n <= Blocks(|payload|)
    ensures Received(store, n) == payload[..if n * BLOCK_SIZE < |payload| then n * BLOCK_SIZE else |payload|]
  {
    hide Padded, BuildBlock, Cksum, Sums;
    if n > 0 {
      var i := n - 1;
      assert i * BLOCK_SIZE < |payload|;
      ReceivedFront(store, payload, i);
      BlockReply(store, payload, i);
      var reply := BuildBlock(store, i);
      var end := if n * BLOCK_SIZE < |payload| then n * BLOCK_SIZE else |payload|;
      KeptSlice(reply, store.data, payload, i, end);
      assert payload[..i * BLOCK_SIZE] + payload[i * BLOCK_SIZE..end] == payload[..end];
    }
  }

  lemma KeptSlice(reply: seq<byte>, data: seq<byte>, payload: seq<byte>, i: nat, end: nat)
    requires |reply| == 8 + BLOCK_SIZE && payload <= data && (i + 1) * BLOCK_SIZE <= |data|
    requires reply[8..] == data[i * BLOCK_SIZE..(i + 1) * BLOCK_SIZE]
    requires i * BLOCK_SIZE < |payload|
    requires end == if (i + 1) * BLOCK_SIZE < |payload| then (i + 1) * BLOCK_SIZE else |payload|
    ensures Kept(|payload|, reply, i) == payload[i * BLOCK_SIZE..end]
  {
    var kept := Kept(|payload|, reply, i);
    assert |kept| == end - i * BLOCK_SIZE;
    forall k | 0 <= k < |kept|
      ensures kept[k] == payload[i * BLOCK_SIZE + k]
    {
      assert kept[k] == reply[8..][k] == data[i * BLOCK_SIZE + k];
    }
  }

  /**
   The blocks that the client asks for and cuts to the announced length are the payload, for every
   payload; there are as many as whole or part kibibytes.
   */
  lemma BlocksRestore(store: BlockStore, payload: seq<byte>)
    requires StoreOf(store, payload)
    ensures |store.sums| == Blocks(|payload|)
    ensures (|store.sums| - 1) * BLOCK_SIZE < |payload| <= |store.sums| * BLOCK_SIZE
    ensures Received(store, |store.sums|) == payload
  {
    hide Padded, Sums;
    ReceivedFront(store, payload, |store.sums|);
  }

  // ----- Formats read back -----

  /** The hello announces the exact payload length and the block size. */
  lemma HelloAnnounces(store: BlockStore)
    requires store.total < TWO32
    ensures var hello := BuildHello(store);
      ValidReply(hello) && U32At(hello, 4) == store.total && U16At(hello, 10) == BLOCK_SIZE
  {
    hide Cksum, Value, Digits;
    var body := Be32(store.total) + Be16(0) + Be16(BLOCK_SIZE);
    var hello := BuildHello(store);
    SummedValid(body);
    assert hello[4..8] == body[0..4] == Be32(store.total);
    assert hello[10..12] == body[6..8] == Be16(BLOCK_SIZE);
    WordRoundTrip(store.total);
    HalfWordRoundTrip(BLOCK_SIZE);
  }

  /** A selection reply carries the URL, padded with zeros, under its own checksum. */
  lemma ResponseCarriesUrl(url: seq<byte>)
    ensures BuildKboxResponse(url).Ok? <==> |url| < URL_BYTES
    ensures |url| < URL_BYTES ==>
      var reply := BuildKboxResponse(url).value;
      && reply[..4] == KBOX && U32At(reply, 4) == KBOX_RESPONSE && U32At(reply, 12) == Cksum(reply[16..])
      && url <= reply[16..] && forall i :: 16 + |url| <= i < 144 ==> reply[i] == 0
  {
    hide Cksum, Value, Digits;
    if |url| < URL_BYTES {
      var area := url + Zeros(URL_BYTES - |url|);
      var reply := BuildKboxResponse(url).value;
      assert reply[4..8] == Be32(KBOX_RESPONSE) && reply[12..16] == Be32(Cksum(area)) && reply[16..] == area;
      WordRoundTrip(KBOX_RESPONSE);
      WordRoundTrip(Cksum(area));
    }
  }

  lemma {:induction false} SumUpdate(s: seq<byte>, i: nat, b: byte)
    requires i < |s|
    ensures Sum(s[i := b]) == Sum(s) - s[i] + b
  {
    if i > 0 {
      SumUpdate(s[1..], i - 1, b);
      assert s[i := b][1..] == s[1..][i - 1 := b];
    } else {
      assert s[0 := b][1..] == s[1..];
    }
  }

  /** A checked image with any one summed byte changed is refused as corrupted. */
  lemma CorruptionDetected(payload: seq<byte>, i: nat, b: byte)
    requires CheckImage(payload) == None
    requires (if payload[..4] == ZupBank.KXZ then 12 else 24) <= i < |payload| && b != payload[i]
    ensures CheckImage(payload[i := b]) == Some(Corrupted)
  {
    hide Value;
    var start := if payload[..4] == ZupBank.KXZ then 12 else 24;
    var changed := payload[i := b];
    assert changed[..12] == payload[..12] && changed[..4] == payload[..4] && changed[..3] == payload[..3];
    assert changed[4..8] == payload[4..8] && changed[8..12] == payload[8..12];
    assert changed[start..] == payload[start..][i - start := b];
    SumUpdate(payload[start..], i - start, b);
    DifferentSums(Sum(payload[start..]), Sum(changed[start..]));
  }

  lemma DifferentSums(a: nat, b: nat)
    requires a != b && -0x100 < a - b < 0x100
    ensures a % TWO32 != b % TWO32
  {
  }
}
