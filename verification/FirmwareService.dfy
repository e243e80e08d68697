/** The firmware server's loop over its two channels: firmware/sata186us.py, for every sequence of packets. */
module FirmwareService {
  import opened Bytes
  import opened Wrappers
  import opened FirmwareBlocks
  import Pieces
  import Sorting

  const NONE_URL: seq<byte> := [0x6E, 0x6F, 0x6E, 0x65]
  const SPACE: byte := 0x20

  // ----- Selection requests -----

  datatype Selection = Selection(platform: u32, baseType: u32)

  /** `str.split()` of printable text: the runs between spaces, with `word` read so far. */
  function Tokens(s: seq<byte>, word: seq<byte>): seq<seq<byte>>
    decreases |s|
  {
    if s == [] then (if word == [] then [] else [word])
    else if s[0] == SPACE then (if word == [] then [] else [word]) + Tokens(s[1..], [])
    else Tokens(s[1..], word + [s[0]])
  }

  predicate Digit(b: byte) {
    0x30 <= b <= 0x39
  }

  /** What Python's `int(text, 10)` accepts of printable text: a sign, digits, single underscores between them. */
  predicate Decimal(s: seq<byte>) {
    var digits := if s != [] && (s[0] == 0x2B || s[0] == 0x2D) then s[1..] else s;
    && digits != [] && Digit(digits[0]) && Digit(digits[|digits| - 1])
    && forall i :: 0 < i < |digits| ==> Digit(digits[i]) || (digits[i] == 0x5F && Digit(digits[i - 1]))
  }

  /** `parse_legacy_kbox_request`, as far as the service uses it. */
  function ParseKbox(packet: seq<byte>): Option<Selection> {
    if |packet| < 16 || packet[..4] != KBOX || U32At(packet, 4) != KBOX_VERSION then None
    else
      var size := U16At(packet, 8);
      if size > MAX_KBOX_DATA || |packet| < 16 + size then None
      else
        var data := packet[16..16 + size];
        if Cksum(data) != U32At(packet, 12) || |data| < 12 then None
        else
          var name := BeforeZero(data[12..]);
          var tokens := Tokens(name, []);
          if exists i :: 0 <= i < |name| && !(0x20 <= name[i] <= 0x7E) then None
          else if exists i :: 1 <= i < 4 && i < |tokens| && !Decimal(tokens[i]) then None
          else Some(Selection(U32At(data, 0), U32At(data, 8)))
  }

  // ----- The server -----

  datatype Config = Config(platform: u32, baseType: u32, store: BlockStore, url: seq<byte>, peer: int)
  {
    predicate Matches(s: Selection) {
      s.baseType == baseType && s.platform == platform
    }
  }

  /** One received packet; `safe` says that the safety check passes and the whole reply goes out. */
  datatype Event = Event(command: bool, host: int, packet: seq<byte>, safe: bool)

  /** A reply with the datagram that carries it. */
  datatype Reply =
    | CommandReply(packet: seq<byte>) | HelloReply(packet: seq<byte>) | BlockReply(index: nat, packet: seq<byte>)

  /** `ServerResult`, the selection, the replies, and whether an error was raised. */
  datatype State = State(
    commandRequests: nat, commandResponses: nat, commandRequestBytes: nat, commandResponseBytes: nat,
    dataRequests: nat, dataResponses: nat, dataRequestBytes: nat, dataResponseBytes: nat,
    invalidRequests: nat, rejectedRequests: nat, uniqueBlocks: set<int>, selected: bool,
    raised: bool, replies: seq<Reply>)

  const INITIAL := State(0, 0, 0, 0, 0, 0, 0, 0, 0, 0, {}, false, false, [])

  function Invalid(s: State): State {
    s.(invalidRequests := s.invalidRequests + 1)
  }

  /** A packet on the command channel. */
  function OnCommand(c: Config, s: State, e: Event): State {
    match ParseKbox(e.packet)
    case None => Invalid(s)
    case Some(selection) =>
      var selected := c.Matches(selection);
      var chosen := s.(selected := selected);
      match BuildKboxResponse(if selected then c.url else NONE_URL)
      case Err(_) => chosen.(raised := true)
      case Ok(response) =>
        if !e.safe then chosen.(raised := true)
        else chosen.(
          commandResponses := s.commandResponses + 1, commandResponseBytes := s.commandResponseBytes + |response|,
          replies := s.replies + [CommandReply(response)])
  }

  /** A packet on the data channel. */
  function OnData(c: Config, s: State, e: Event): State
    requires c.store.total < TWO32
  {
    if !s.selected then Invalid(s)
    else match ParseDataRequest(e.packet)
      case Err(_) => Invalid(s)
      case Ok(None) =>
        if !e.safe then s.(raised := true)
        else s.(
          dataResponses := s.dataResponses + 1, dataResponseBytes := s.dataResponseBytes + |BuildHello(c.store)|,
          replies := s.replies + [HelloReply(BuildHello(c.store))])
      case Ok(Some(index)) =>
        if index >= |c.store.sums| then Invalid(s)
        else if !e.safe then s.(raised := true)
        else s.(
          dataResponses := s.dataResponses + 1, dataResponseBytes := s.dataResponseBytes + |BuildBlock(c.store, index)|,
          uniqueBlocks := s.uniqueBlocks + {index as int},
          replies := s.replies + [BlockReply(index, BuildBlock(c.store, index))])
  }

  predicate Refused(c: Config, e: Event) {
    e.host != c.peer || e.packet == [] || |e.packet| > MAX_SERVER_DATAGRAM
  }

  /** One packet in the loop of `serve_firmware`. */
  function Step(c: Config, s: State, e: Event): State
    requires c.store.total < TWO32
  {
    if s.raised then s
    else if Refused(c, e) then s.(rejectedRequests := s.rejectedRequests + 1)
    else if e.command then
      OnCommand(c, s.(commandRequests := s.commandRequests + 1,
        commandRequestBytes := s.commandRequestBytes + |e.packet|), e)
    else
      OnData(c, s.(dataRequests := s.dataRequests + 1, dataRequestBytes := s.dataRequestBytes + |e.packet|), e)
  }

  function Run(c: Config, events: seq<Event>): State
    requires c.store.total < TWO32
  {
    if events == [] then INITIAL else Step(c, Run(c, events[..|events| - 1]), events[|events| - 1])
  }

  /** `ServerResult.complete`. */
  predicate Completed(c: Config, s: State) {
    |s.uniqueBlocks| == |c.store.sums|
  }

  /** `serve_firmware`: the counters of its result change in place. */
  class Server {
    const config: Config
    var commandRequests: nat
    var commandResponses: nat
    var commandRequestBytes: nat
    var commandResponseBytes: nat
    var dataRequests: nat
    var dataResponses: nat
    var dataRequestBytes: nat
    var dataResponseBytes: nat
    var invalidRequests: nat
    var rejectedRequests: nat
    var uniqueBlocks: set<int>
    var selected: bool
    var raised: bool
    var replies: seq<Reply>

    ghost function Now(): State
      reads this
    {
      State(commandRequests, commandResponses, commandRequestBytes, commandResponseBytes,
        dataRequests, dataResponses, dataRequestBytes, dataResponseBytes,
        invalidRequests, rejectedRequests, uniqueBlocks, selected, raised, replies)
    }

    constructor (config: Config)
      ensures Now() == INITIAL && this.config == config
    {
      this.config := config;
      commandRequests, commandResponses, commandRequestBytes, commandResponseBytes := 0, 0, 0, 0;
      dataRequests, dataResponses, dataRequestBytes, dataResponseBytes := 0, 0, 0, 0;
      invalidRequests, rejectedRequests, uniqueBlocks := 0, 0, {};
      selected, raised, replies := false, false, [];
    }

    method HandleCommand(e: Event)
      modifies this
      ensures Now() == OnCommand(config, old(Now()), e)
    {
      hide ParseKbox, BuildKboxResponse;
      var parsed := ParseKbox(e.packet);
      if parsed == None {
        invalidRequests := invalidRequests + 1;
        return;
      }
      selected := parsed.value.baseType == config.baseType && parsed.value.platform == config.platform;
      var response := BuildKboxResponse(if selected then config.url else NONE_URL);
      if response.Err? || !e.safe {
        raised := true;
        return;
      }
      replies := replies + [CommandReply(response.value)];
      commandResponses := commandResponses + 1;
      commandResponseBytes := commandResponseBytes + |response.value|;
    }

    method HandleData(e: Event)
      requires config.store.total < TWO32
      modifies this
      ensures Now() == OnData(config, old(Now()), e)
    {
      hide ParseDataRequest, BuildHello, BuildBlock;
      if !selected {
        invalidRequests := invalidRequests + 1;
        return;
      }
      var parsed := ParseDataRequest(e.packet);
      if parsed.Err? {
        invalidRequests := invalidRequests + 1;
        return;
      }
      var response: seq<byte>;
      if parsed.value == None {
        response := BuildHello(config.store);
      } else if parsed.value.value as int >= |config.store.sums| {
        invalidRequests := invalidRequests + 1;
        return;
      } else {
        response := BuildBlock(config.store, parsed.value.value);
      }
      if !e.safe {
        raised := true;
        return;
      }
      dataResponses := dataResponses + 1;
      dataResponseBytes := dataResponseBytes + |response|;
      if parsed.value.Some? {
        replies := replies + [BlockReply(parsed.value.value, response)];
        uniqueBlocks := uniqueBlocks + {parsed.value.value as int};
      } else {
        replies := replies + [HelloReply(response)];
      }
    }

    /** The loop body for one packet. */
    method HandlePacket(e: Event)
      requires config.store.total < TWO32 && !raised
      modifies this
      ensures Now() == Step(config, old(Now()), e)
    {
      hide OnCommand, OnData;
      if e.host != config.peer || e.packet == [] || |e.packet| > MAX_SERVER_DATAGRAM {
        rejectedRequests := rejectedRequests + 1;
      } else if e.command {
        commandRequests := commandRequests + 1;
        commandRequestBytes := commandRequestBytes + |e.packet|;
        HandleCommand(e);
      } else {
        dataRequests := dataRequests + 1;
        dataRequestBytes := dataRequestBytes + |e.packet|;
        HandleData(e);
      }
    }

    /** The loop, over what the sockets bring; a raised error ends it. */
    method Serve(events: seq<Event>)
      requires config.store.total < TWO32 && Now() == INITIAL
      modifies this
      ensures Now() == Run(config, events)
    {
      hide OnCommand, OnData, Refused;
      for i := 0 to |events|
        invariant Now() == Run(config, events[..i])
      {
        assert events[..i + 1][..i] == events[..i];
        if !raised {
          HandlePacket(events[i]);
        }
      }
      assert events[..|events|] == events;
    }
  }

  // ----- Every run -----

  /** The latest well-formed selection that the server took. */
  function Latest(c: Config, events: seq<Event>): Option<Selection> {
    if events == [] then None
    else
      var last := events[|events| - 1];
      if last.command && !Refused(c, last) && ParseKbox(last.packet).Some? then ParseKbox(last.packet)
      else Latest(c, events[..|events| - 1])
  }

  function CountHello(replies: seq<Reply>): nat {
    if replies == [] then 0
    else CountHello(replies[..|replies| - 1]) + if replies[|replies| - 1].HelloReply? then 1 else 0
  }

  function CountBlocks(replies: seq<Reply>): nat {
    if replies == [] then 0
    else CountBlocks(replies[..|replies| - 1]) + if replies[|replies| - 1].BlockReply? then 1 else 0
  }

  function CountCommands(replies: seq<Reply>): nat {
    if replies == [] then 0
    else CountCommands(replies[..|replies| - 1]) + if replies[|replies| - 1].CommandReply? then 1 else 0
  }

  /** The bytes of the packets that were taken from one channel. */
  function TakenBytes(c: Config, events: seq<Event>, command: bool): nat {
    if events == [] then 0
    else
      var last := events[|events| - 1];
      TakenBytes(c, events[..|events| - 1], command)
      + if last.command == command && !Refused(c, last) then |last.packet| else 0
  }

  /** The books at a loop head: every request is answered or invalid, and every byte is accounted for. */
  ghost predicate Balanced(c: Config, events: seq<Event>, s: State) {
    && s.commandRequests + s.dataRequests == s.commandResponses + s.dataResponses + s.invalidRequests
    && s.commandResponses == CountCommands(s.replies)
    && s.dataResponses == CountHello(s.replies) + CountBlocks(s.replies)
    && s.commandResponseBytes == 144 * CountCommands(s.replies)
    && s.dataResponseBytes == 12 * CountHello(s.replies) + 1032 * CountBlocks(s.replies)
    && s.commandRequestBytes == TakenBytes(c, events, true) && s.dataRequestBytes == TakenBytes(c, events, false)
  }

  /** The selection is the latest well-formed one's match, and the sent blocks are the block replies. */
  ghost predicate Tracked(c: Config, events: seq<Event>, s: State) {
    && (s.selected <==> Latest(c, events).Some? && c.Matches(Latest(c, events).value))
    && (forall i :: i in s.uniqueBlocks <==> 0 <= i && BlockReply(i, BuildBlock(c.store, i)) in s.replies)
    && (forall i :: i in s.uniqueBlocks ==> 0 <= i < |c.store.sums|)
  }

  lemma CountsSnoc(replies: seq<Reply>, r: Reply)
    ensures CountHello(replies + [r]) == CountHello(replies) + if r.HelloReply? then 1 else 0
    ensures CountBlocks(replies + [r]) == CountBlocks(replies) + if r.BlockReply? then 1 else 0
    ensures CountCommands(replies + [r]) == CountCommands(replies) + if r.CommandReply? then 1 else 0
  {
    assert (replies + [r])[..|replies|] == replies;
  }

  lemma StepKeeps(c: Config, events: seq<Event>, s: State, e: Event)
    requires c.store.total < TWO32 && !s.raised && Balanced(c, events, s) && Tracked(c, events, s)
    ensures var r := Step(c, s, e);
      && (!r.raised ==> Balanced(c, events + [e], r) && Tracked(c, events + [e], r))
      && (r.replies != s.replies ==> |r.replies| == |s.replies| + 1 && s.replies <= r.replies && !r.raised)
  {
    hide ParseKbox, ParseDataRequest, BuildHello, BuildBlock, BuildKboxResponse, CountHello, CountBlocks,
      CountCommands, Refused;
    assert (events + [e])[..|events|] == events;
    var r := Step(c, s, e);
    if r.replies != s.replies {
      CountsSnoc(s.replies, r.replies[|s.replies|]);
    }
  }

  /** At every loop head that a run reaches without a raised error, the books balance and the selection is tracked. */
  lemma {:induction false} EveryRun(c: Config, events: seq<Event>)
    requires c.store.total < TWO32
    ensures !Run(c, events).raised ==> Balanced(c, events, Run(c, events)) && Tracked(c, events, Run(c, events))
  {
    hide Step, Balanced, Tracked;
    if events == [] {
      EmptyRun(c);
    } else {
      var n := |events| - 1;
      EveryRun(c, events[..n]);
      assert events == events[..n] + [events[n]];
      if Run(c, events[..n]).raised {
        RaisedStays(c, Run(c, events[..n]), events[n]);
      } else {
        StepKeeps(c, events[..n], Run(c, events[..n]), events[n]);
      }
    }
  }

  lemma EmptyRun(c: Config)
    ensures Balanced(c, [], INITIAL) && Tracked(c, [], INITIAL)
  {
  }

  lemma RaisedStays(c: Config, s: State, e: Event)
    requires c.store.total < TWO32 && s.raised
    ensures Step(c, s, e) == s
  {
  }

  /** No data reply goes out unless the latest well-formed selection matched the platform and the type. */
  lemma DataRepliesAreSelected(c: Config, events: seq<Event>, e: Event)
    requires c.store.total < TWO32
    ensures var before, after := Run(c, events), Run(c, events + [e]);
      after.replies == before.replies
      || (|after.replies| == |before.replies| + 1 && before.replies <= after.replies
        && (!after.replies[|before.replies|].CommandReply? ==>
          Latest(c, events).Some? && c.Matches(Latest(c, events).value)))
  {
    hide ParseKbox, ParseDataRequest, BuildHello, BuildBlock, BuildKboxResponse, Balanced, Refused;
    assert (events + [e])[..|events|] == events;
    EveryRun(c, events);
  }

  /** `complete` holds exactly when every block was sent at least once. */
  lemma CompleteIff(c: Config, events: seq<Event>)
    requires c.store.total < TWO32 && !Run(c, events).raised
    ensures Completed(c, Run(c, events)) <==>
      forall i :: 0 <= i < |c.store.sums| ==>
        BlockReply(i, BuildBlock(c.store, i)) in Run(c, events).replies
  {
    hide Run, Balanced, Latest;
    EveryRun(c, events);
    var s := Run(c, events);
    var all := UpTo(|c.store.sums|);
    assert s.uniqueBlocks <= all;
    if Completed(c, s) {
      SubsetFull(s.uniqueBlocks, all);
    }
    if forall i :: 0 <= i < |c.store.sums| ==> BlockReply(i, BuildBlock(c.store, i)) in s.replies {
      assert all == s.uniqueBlocks;
    }
  }

  /** The numbers below `n`. */
  function UpTo(n: nat): (s: set<int>)
    ensures |s| == n && forall i :: i in s <==> 0 <= i < n
  {
    if n == 0 then {} else UpTo(n - 1) + {n - 1}
  }

  lemma {:induction false} SubsetFull(a: set<int>, b: set<int>)
    requires a <= b && |a| == |b|
    ensures a == b
  {
    if a != {} {
      var x := Sorting.Pick(a);
      SubsetFull(a - {x}, b - {x});
    }
  }

  // ----- Selections read back -----

  /** A selection request: `build_kbox_request` around any metadata text. */
  function KboxRequest(platform: u32, version: u32, baseType: u32, text: seq<byte>): seq<byte>
    requires |text| + 12 <= MAX_KBOX_DATA
  {
    var data := Be32(platform) + Be32(version) + Be32(baseType) + text;
    KBOX + Be32(KBOX_VERSION) + Be16(|data|) + [0, 0] + Be32(Cksum(data)) + data
  }

  /** The text that a request may carry: printable up to its first zero, with numbers after the name. */
  predicate Metadata(text: seq<byte>) {
    var name := BeforeZero(text);
    && (forall i :: 0 <= i < |name| ==> 0x20 <= name[i] <= 0x7E)
    && forall i :: 1 <= i < 4 && i < |Tokens(name, [])| ==> Decimal(Tokens(name, [])[i])
  }

  lemma RequestFields(packet: seq<byte>, data: seq<byte>)
    requires |data| < TWO16
    requires packet == KBOX + Be32(KBOX_VERSION) + Be16(|data|) + [0, 0] + Be32(Cksum(data)) + data
    ensures |packet| == 16 + |data| && packet[..4] == KBOX && U32At(packet, 4) == KBOX_VERSION
    ensures U16At(packet, 8) == |data| && U32At(packet, 12) == Cksum(data) && packet[16..16 + |data|] == data
  {
    hide Cksum, Value, Digits;
    assert packet[4..8] == Be32(KBOX_VERSION) && packet[8..10] == Be16(|data|);
    assert packet[12..16] == Be32(Cksum(data)) && packet[16..16 + |data|] == data;
    WordRoundTrip(KBOX_VERSION);
    HalfWordRoundTrip(|data|);
    WordRoundTrip(Cksum(data));
  }

  /** A request is taken exactly when its text is well formed, and then selects its platform and type. */
  lemma SelectionRoundTrip(platform: u32, version: u32, baseType: u32, text: seq<byte>)
    requires |text| + 12 <= MAX_KBOX_DATA
    ensures ParseKbox(KboxRequest(platform, version, baseType, text))
      == if Metadata(text) then Some(Selection(platform, baseType)) else None
  {
    hide Cksum, Value, Digits, Tokens, BeforeZero, Decimal;
    var data := Be32(platform) + Be32(version) + Be32(baseType) + text;
    var packet := KboxRequest(platform, version, baseType, text);
    RequestFields(packet, data);
    assert data[12..] == text && data[0..4] == Be32(platform) && data[8..12] == Be32(baseType);
    WordRoundTrip(platform);
    WordRoundTrip(baseType);
  }

  /** Any packet around a selection: two bytes that nobody reads, and anything behind the declared data. */
  function KboxPacket(selection: Selection, version: u32, text: seq<byte>, unused: seq<byte>, rest: seq<byte>):
    seq<byte>
    requires |text| + 12 <= MAX_KBOX_DATA
  {
    var data := Be32(selection.platform) + Be32(version) + Be32(selection.baseType) + text;
    KBOX + Be32(KBOX_VERSION) + Be16(|data|) + unused + Be32(Cksum(data)) + data + rest
  }

  lemma PacketFields(packet: seq<byte>, data: seq<byte>, unused: seq<byte>, rest: seq<byte>)
    requires |data| < TWO16 && |unused| == 2
    requires packet == KBOX + Be32(KBOX_VERSION) + Be16(|data|) + unused + Be32(Cksum(data)) + data + rest
    ensures |packet| >= 16 + |data| && packet[..4] == KBOX && U32At(packet, 4) == KBOX_VERSION
    ensures U16At(packet, 8) == |data| && U32At(packet, 12) == Cksum(data) && packet[16..16 + |data|] == data
  {
    hide Cksum, Value, Digits;
    assert packet[4..8] == Be32(KBOX_VERSION) && packet[8..10] == Be16(|data|);
    assert packet[12..16] == Be32(Cksum(data)) && packet[16..16 + |data|] == data;
    WordRoundTrip(KBOX_VERSION);
    HalfWordRoundTrip(|data|);
    WordRoundTrip(Cksum(data));
  }

  lemma DataFields(selection: Selection, version: u32, text: seq<byte>)
    ensures var data := Be32(selection.platform) + Be32(version) + Be32(selection.baseType) + text;
      U32At(data, 0) == selection.platform && U32At(data, 8) == selection.baseType && data[12..] == text
  {
    hide Value, Digits;
    var data := Be32(selection.platform) + Be32(version) + Be32(selection.baseType) + text;
    assert data[0..4] == Be32(selection.platform) && data[8..12] == Be32(selection.baseType);
    WordRoundTrip(selection.platform);
    WordRoundTrip(selection.baseType);
  }

  /** The server takes exactly such packets whose text is well formed, and reads their selection. */
  lemma KboxIff(packet: seq<byte>, selection: Selection)
    ensures ParseKbox(packet) == Some(selection) <==>
      exists version: u32, text: seq<byte>, unused: seq<byte>, rest: seq<byte> ::
        |text| + 12 <= MAX_KBOX_DATA && |unused| == 2 && Metadata(text)
        && packet == KboxPacket(selection, version, text, unused, rest)
  {
    hide Cksum, Value, Digits, Tokens, BeforeZero, Decimal;
    forall version: u32, text: seq<byte>, unused: seq<byte>, rest: seq<byte>
      | |text| + 12 <= MAX_KBOX_DATA && |unused| == 2 && Metadata(text)
        && packet == KboxPacket(selection, version, text, unused, rest)
      ensures ParseKbox(packet) == Some(selection)
    {
      var data := Be32(selection.platform) + Be32(version) + Be32(selection.baseType) + text;
      PacketFields(packet, data, unused, rest);
      DataFields(selection, version, text);
    }
    if ParseKbox(packet) == Some(selection) {
      PacketRewritten(packet, selection);
    }
  }

  lemma PacketRewritten(packet: seq<byte>, selection: Selection)
    requires ParseKbox(packet) == Some(selection)
    ensures var size := U16At(packet, 8);
      && 12 <= size <= MAX_KBOX_DATA && 16 + size <= |packet| && Metadata(packet[28..16 + size])
      && packet == KboxPacket(selection, U32At(packet, 20), packet[28..16 + size], packet[10..12], packet[16 + size..])
  {
    hide Cksum, Value, Digits, Tokens, BeforeZero, Decimal;
    var size := U16At(packet, 8);
    var data := packet[16..16 + size];
    WordRewrite(data, 0);
    WordRewrite(data, 8);
    WordRewrite(packet, 20);
    Pieces.SubSlice(packet, 16, data, 4, 8);
    Pieces.SubSlice(packet, 16, data, 12, size);
    assert data == data[0..4] + data[4..8] + data[8..12] + data[12..];
    WordRewrite(packet, 4);
    HalfWordRewrite(packet, 8);
    WordRewrite(packet, 12);
    assert packet == packet[..4] + packet[4..8] + packet[8..10] + packet[10..12] + packet[12..16] + data
      + packet[16 + size..];
  }

  /** Splitting into words: leading spaces are skipped, and a run up to a space or the end is a word. */
  lemma {:induction false} TokensRules(word: seq<byte>, rest: seq<byte>)
    ensures Tokens([], []) == []
    ensures Tokens([SPACE] + rest, []) == Tokens(rest, [])
    ensures word != [] && SPACE !in word && (rest == [] || rest[0] == SPACE) ==>
      Tokens(word + rest, []) == [word] + Tokens(rest, [])
  {
    assert ([SPACE] + rest)[1..] == rest && [] + Tokens(rest, []) == Tokens(rest, []);
    if word != [] && SPACE !in word && (rest == [] || rest[0] == SPACE) {
      WordRead([], word, rest);
      assert [] + word == word;
    }
  }

  lemma {:induction false} WordRead(read: seq<byte>, word: seq<byte>, rest: seq<byte>)
    requires SPACE !in word && read + word != [] && (rest == [] || rest[0] == SPACE)
    ensures Tokens(word + rest, read) == [read + word] + Tokens(rest, [])
    decreases |word|
  {
    if word == [] {
      assert word + rest == rest && read + word == read;
      if rest != [] {
        assert Tokens(rest, []) == [] + Tokens(rest[1..], []) == Tokens(rest[1..], []);
      }
    } else {
      assert word[0] in word && (word + rest)[0] == word[0] && (word + rest)[1..] == word[1..] + rest;
      assert read + [word[0]] + word[1..] == read + word;
      WordRead(read + [word[0]], word[1..], rest);
    }
  }

  // ----- What every packet is answered with -----

  /** A selection reply that carries a URL: the client's checks on it, and zeros behind the URL. */
  ghost predicate CarriesUrl(p: seq<byte>, url: seq<byte>) {
    && |p| == 144 && p[..4] == KBOX && U32At(p, 4) == KBOX_RESPONSE && U32At(p, 12) == Cksum(p[16..])
    && url <= p[16..] && forall i :: 16 + |url| <= i < 144 ==> p[i] == 0
  }

  /** A hello that announces the length of a payload and the block size. */
  ghost predicate Announces(p: seq<byte>, total: nat) {
    |p| == 12 && ValidReply(p) && U32At(p, 4) == total && U16At(p, 10) == BLOCK_SIZE
  }

  /** A reply that carries block `index` of a payload, padded with zeros behind the payload's end. */
  ghost predicate CarriesBlock(p: seq<byte>, payload: seq<byte>, index: nat) {
    && |p| == 8 + BLOCK_SIZE && ValidReply(p) && U16At(p, 4) == index && U16At(p, 6) == BLOCK_SIZE
    && forall k :: 8 <= k < 8 + BLOCK_SIZE ==>
      var at := index * BLOCK_SIZE + k - 8; p[k] == if at < |payload| then payload[at] else 0
  }

  /** A data request with its checksum; the size is zero for the hello. */
  ghost predicate Asks(p: seq<byte>, index: nat, size: nat) {
    && 12 <= |p| <= MAX_SERVER_DATAGRAM && U32At(p, 0) == Cksum(p[4..12])
    && U16At(p, 8) == index && U16At(p, 10) == size
  }

  /** What one packet is answered with, if no error is raised: from the latest selection before it. */
  ghost predicate Answered(c: Config, payload: seq<byte>, latest: Option<Selection>, e: Event, answer: seq<Reply>) {
    var blocks := (|payload| + BLOCK_SIZE - 1) / BLOCK_SIZE;
    if Refused(c, e) then answer == []
    else if e.command then
      match ParseKbox(e.packet)
      case None => answer == []
      case Some(selection) =>
        && |answer| == 1 && answer[0].CommandReply?
        && CarriesUrl(answer[0].packet, if c.Matches(selection) then c.url else NONE_URL)
    else if latest == None || !c.Matches(latest.value) then answer == []
    else
      && ((exists i :: Asks(e.packet, i, 0)) ==>
        |answer| == 1 && answer[0].HelloReply? && Announces(answer[0].packet, |payload|))
      && (forall i: nat :: Asks(e.packet, i, BLOCK_SIZE) && i < blocks ==>
        |answer| == 1 && answer[0].BlockReply? && answer[0].index == i && CarriesBlock(answer[0].packet, payload, i))
      && ((forall i: nat, size: nat :: Asks(e.packet, i, size) ==> size != 0 && (size != BLOCK_SIZE || i >= blocks)) ==>
        answer == [])
  }

  lemma AsksIff(p: seq<byte>)
    ensures ParseDataRequest(p) == Ok(None) <==> exists i :: Asks(p, i, 0)
    ensures forall i: nat :: i < TWO16 ==> (ParseDataRequest(p) == Ok(Some(i)) <==> Asks(p, i, BLOCK_SIZE))
    ensures ParseDataRequest(p).Err?
      <==> forall i: nat, size: nat :: Asks(p, i, size) ==> size != 0 && size != BLOCK_SIZE
  {
    hide Cksum, U16At, U32At;
    if 12 <= |p| <= MAX_SERVER_DATAGRAM && U32At(p, 0) == Cksum(p[4..12]) {
      assert Asks(p, U16At(p, 8), U16At(p, 10));
    }
  }

  lemma HelloIs(store: BlockStore, payload: seq<byte>)
    requires StoreOf(store, payload)
    ensures Announces(BuildHello(store), |payload|)
  {
    hide Padded, Sums, U32At, U16At, Cksum, BuildHello;
    HelloAnnounces(store);
  }

  lemma BlockIs(store: BlockStore, payload: seq<byte>, index: nat)
    requires StoreOf(store, payload) && index < |store.sums|
    ensures CarriesBlock(BuildBlock(store, index), payload, index)
  {
    hide Sums, U32At, U16At, Cksum, BuildBlock, ValidReply;
    FirmwareBlocks.BlockReply(store, payload, index);
    var p := BuildBlock(store, index);
    forall k | 8 <= k < 8 + BLOCK_SIZE
      ensures var at := index * BLOCK_SIZE + k - 8; p[k] == if at < |payload| then payload[at] else 0
    {
      assert p[k] == p[8..][k - 8] == store.data[index * BLOCK_SIZE + k - 8];
      PaddedAt(payload, index * BLOCK_SIZE + k - 8);
    }
  }

  lemma PaddedAt(payload: seq<byte>, i: nat)
    requires i < |Padded(payload)|
    ensures Padded(payload)[i] == if i < |payload| then payload[i] else 0
  {
  }

  lemma ResponseIs(url: seq<byte>)
    requires BuildKboxResponse(url).Ok?
    ensures CarriesUrl(BuildKboxResponse(url).value, url)
  {
    hide U32At, Cksum;
    ResponseCarriesUrl(url);
  }

  lemma CommandAnswered(c: Config, payload: seq<byte>, s: State, latest: Option<Selection>, e: Event)
    requires !OnCommand(c, s, e).raised && e.command
    ensures s.replies <= OnCommand(c, s, e).replies
    ensures !Refused(c, e) ==> Answered(c, payload, latest, e, OnCommand(c, s, e).replies[|s.replies|..])
  {
    hide ParseKbox, BuildKboxResponse, Refused, CarriesUrl, Asks, Announces, CarriesBlock;
    if ParseKbox(e.packet).Some? {
      var url := if c.Matches(ParseKbox(e.packet).value) then c.url else NONE_URL;
      if BuildKboxResponse(url).Ok? {
        ResponseIs(url);
      }
    }
  }

  lemma DataAnswered(c: Config, payload: seq<byte>, s: State, latest: Option<Selection>, e: Event)
    requires StoreOf(c.store, payload) && c.store.total < TWO32 && !OnData(c, s, e).raised && !e.command
    requires s.selected <==> latest.Some? && c.Matches(latest.value)
    ensures s.replies <= OnData(c, s, e).replies
    ensures !Refused(c, e) ==> Answered(c, payload, latest, e, OnData(c, s, e).replies[|s.replies|..])
  {
    hide StoreOf, ParseDataRequest, BuildHello, BuildBlock, Refused, Asks, Announces, CarriesBlock, CarriesUrl,
      ParseKbox;
    AsksIff(e.packet);
    StoreBlocks(c.store, payload);
    HelloIs(c.store, payload);
    var parsed := ParseDataRequest(e.packet);
    if parsed.Ok? && parsed.value.Some? {
      OneRequest(e.packet, parsed.value.value);
      if parsed.value.value < |c.store.sums| {
        BlockIs(c.store, payload, parsed.value.value);
      }
    }
    if parsed == Ok(None) {
      NoBlockAsked(e.packet);
    }
  }

  lemma OneRequest(p: seq<byte>, index: u16)
    requires ParseDataRequest(p) == Ok(Some(index))
    ensures forall i: nat, size: nat :: Asks(p, i, size) <==> i == index && size == BLOCK_SIZE
  {
    hide Cksum, U16At, U32At;
  }

  lemma NoBlockAsked(p: seq<byte>)
    requires ParseDataRequest(p) == Ok(None)
    ensures forall i: nat, size: nat :: Asks(p, i, size) ==> size == 0
    ensures exists i: nat :: Asks(p, i, 0)
  {
    hide Cksum, U16At, U32At;
    assert Asks(p, U16At(p, 8), 0);
  }

  lemma NothingAnswered(c: Config, payload: seq<byte>, latest: Option<Selection>, e: Event)
    requires Refused(c, e)
    ensures Answered(c, payload, latest, e, [])
  {
  }

  /**
   In every run each packet that raises no error is answered as the latest selection calls for: a
   selection with the URL or `none`, a hello with the length, a request for a block with that block, and
   nothing else with anything.
   */
  lemma EveryAnswer(c: Config, payload: seq<byte>, events: seq<Event>, e: Event)
    requires StoreOf(c.store, payload) && c.store.total < TWO32 && !Run(c, events + [e]).raised
    ensures var before, after := Run(c, events).replies, Run(c, events + [e]).replies;
      && before <= after && Answered(c, payload, Latest(c, events), e, after[|before|..])
  {
    hide StoreOf, Step, Balanced, Answered, Latest;
    assert (events + [e])[..|events|] == events;
    EveryRun(c, events);
    if Run(c, events).raised {
      RaisedStays(c, Run(c, events), e);
    }
    StepAnswered(c, payload, Run(c, events), Latest(c, events), e);
  }

  lemma StepAnswered(c: Config, payload: seq<byte>, s: State, latest: Option<Selection>, e: Event)
    requires StoreOf(c.store, payload) && c.store.total < TWO32 && !s.raised && !Step(c, s, e).raised
    requires s.selected <==> latest.Some? && c.Matches(latest.value)
    ensures s.replies <= Step(c, s, e).replies
    ensures Answered(c, payload, latest, e, Step(c, s, e).replies[|s.replies|..])
  {
    hide StoreOf, OnCommand, OnData, Answered, Refused;
    if Refused(c, e) {
      NothingAnswered(c, payload, latest, e);
      assert s.replies[|s.replies|..] == [];
    } else if e.command {
      CommandAnswered(c, payload, s.(commandRequests := s.commandRequests + 1,
        commandRequestBytes := s.commandRequestBytes + |e.packet|), latest, e);
    } else {
      DataAnswered(c, payload, s.(dataRequests := s.dataRequests + 1,
        dataRequestBytes := s.dataRequestBytes + |e.packet|), latest, e);
    }
  }

  /**
   A packet raises an error exactly when an answer is due that cannot be given: the safety check fails
   or the send is short, or the URL is too long for a selection that matches.
   */
  lemma RaisesIff(c: Config, payload: seq<byte>, events: seq<Event>, e: Event)
    requires StoreOf(c.store, payload) && c.store.total < TWO32 && !Run(c, events).raised
    ensures var latest, blocks := Latest(c, events), (|payload| + BLOCK_SIZE - 1) / BLOCK_SIZE;
      var due :=
        if e.command then
          ParseKbox(e.packet).Some? && (!e.safe || (c.Matches(ParseKbox(e.packet).value) && |c.url| >= URL_BYTES))
        else
          latest.Some? && c.Matches(latest.value) && !e.safe
          && ((exists i :: Asks(e.packet, i, 0)) || exists i: nat :: Asks(e.packet, i, BLOCK_SIZE) && i < blocks);
      Run(c, events + [e]).raised <==> !Refused(c, e) && due
  {
    hide StoreOf, ParseKbox, ParseDataRequest, BuildHello, BuildBlock, BuildKboxResponse, Balanced, Refused, Asks,
      Latest;
    assert (events + [e])[..|events|] == events;
    EveryRun(c, events);
    AsksIff(e.packet);
    StoreBlocks(c.store, payload);
    ResponseCarriesUrl(c.url);
    ResponseCarriesUrl(NONE_URL);
    var parsed := ParseDataRequest(e.packet);
    if parsed.Ok? && parsed.value.Some? {
      OneRequest(e.packet, parsed.value.value);
    }
    if parsed == Ok(None) {
      NoBlockAsked(e.packet);
    }
  }

  lemma StoreBlocks(store: BlockStore, payload: seq<byte>)
    requires StoreOf(store, payload)
    ensures |store.sums| == (|payload| + BLOCK_SIZE - 1) / BLOCK_SIZE <= 512 && store.total == |payload|
  {
    hide Padded, Sums;
  }

  // ----- A whole session -----

  /** The client's hello. */
  function HelloRequest(): seq<byte> {
    Summed(Be32(0) + Be16(0) + Be16(0))
  }

  lemma HelloRead()
    ensures ParseDataRequest(HelloRequest()) == Ok(None) && |HelloRequest()| == 12
  {
    hide Cksum, Value, Digits;
    var body := Be32(0) + Be16(0) + Be16(0);
    var packet := HelloRequest();
    SummedValid(body);
    assert packet[4..12] == packet[4..] == body;
    assert packet[10..12] == body[6..8] == Be16(0);
    HalfWordRoundTrip(0);
  }

  /** The client's packets in order: its selection, a hello, and requests for the first `n` blocks. */
  function Session(c: Config, selection: seq<byte>, n: nat): (events: seq<Event>)
    requires n <= TWO16
    ensures |events| == 2 + n
  {
    if n == 0 then [Event(true, c.peer, selection, true), Event(false, c.peer, HelloRequest(), true)]
    else Session(c, selection, n - 1) + [Event(false, c.peer, BlockRequest(n - 1), true)]
  }

  /** What the client puts together from the replies to its block requests. */
  function Assembled(total: nat, replies: seq<Reply>): seq<byte> {
    if replies == [] then []
    else
      var n := |replies| - 1;
      var p := replies[n].packet;
      Assembled(total, replies[..n])
      + if |p| == 8 + BLOCK_SIZE && n * BLOCK_SIZE <= total then Kept(total, p, n) else []
  }

  /** The replies of a session: the URL, the hello, and the blocks in order. */
  ghost predicate SessionReplies(c: Config, s: State, n: nat) {
    && !s.raised && s.selected && |s.replies| == 2 + n && s.replies[0].CommandReply?
    && BuildKboxResponse(c.url) == Ok(s.replies[0].packet)
    && c.store.total < TWO32 && s.replies[1] == HelloReply(BuildHello(c.store))
    && forall i :: 0 <= i < n ==> s.replies[2 + i] == BlockReply(i, BuildBlock(c.store, i))
  }

  /** The selection that the client sends for the server's image. */
  ghost predicate Selects(c: Config, selection: seq<byte>) {
    0 < |selection| <= MAX_SERVER_DATAGRAM && ParseKbox(selection) == Some(Selection(c.platform, c.baseType))
  }

  lemma {:induction false} SessionRuns(c: Config, payload: seq<byte>, selection: seq<byte>, n: nat)
    requires StoreOf(c.store, payload) && |c.url| < URL_BYTES && Selects(c, selection)
    requires n <= |c.store.sums| <= 512 && c.store.total < TWO32
    ensures SessionReplies(c, Run(c, Session(c, selection, n)), n)
  {
    hide StoreOf, Step, SessionReplies, Selects, BlockRequest;
    if n == 0 {
      SessionStarts(c, selection);
    } else {
      SessionRuns(c, payload, selection, n - 1);
      var before := Session(c, selection, n - 1);
      assert Session(c, selection, n)[..|before|] == before;
      NextBlock(c, Run(c, before), n - 1);
    }
  }

  lemma NextBlock(c: Config, s: State, i: nat)
    requires c.store.total < TWO32 && SessionReplies(c, s, i) && i < |c.store.sums| <= 512
    ensures SessionReplies(c, Step(c, s, Event(false, c.peer, BlockRequest(i), true)), i + 1)
  {
    hide ParseDataRequest, BuildHello, BuildBlock, BuildKboxResponse, BlockRequest, OnCommand;
    RequestRoundTrip(i);
    RequestSize(i);
    var r := Step(c, s, Event(false, c.peer, BlockRequest(i), true));
    assert r.replies == s.replies + [BlockReply(i, BuildBlock(c.store, i))];
  }

  lemma RequestSize(i: u16)
    ensures |BlockRequest(i)| == 12
  {
  }

  lemma SessionStarts(c: Config, selection: seq<byte>)
    requires |c.url| < URL_BYTES && Selects(c, selection) && c.store.total < TWO32
    ensures SessionReplies(c, Run(c, Session(c, selection, 0)), 0)
  {
    hide ParseKbox, ParseDataRequest, BuildHello, BuildKboxResponse, HelloRequest;
    var first := Event(true, c.peer, selection, true);
    var second := Event(false, c.peer, HelloRequest(), true);
    ResponseCarriesUrl(c.url);
    HelloRead();
    assert [first, second][..1] == [first] && [first][..0] == [];
    assert Run(c, []) == INITIAL;
    assert Run(c, [first]) == Step(c, INITIAL, first);
  }

  lemma {:induction false} AssembledBlocks(store: BlockStore, payload: seq<byte>, replies: seq<Reply>)
    requires StoreOf(store, payload) && |replies| <= Blocks(store.total)
    requires forall i :: 0 <= i < |replies| ==> replies[i] == BlockReply(i, BuildBlock(store, i))
    ensures Assembled(store.total, replies) == Received(store, |replies|)
  {
    hide StoreOf, BuildBlock;
    if replies != [] {
      AssembledBlocks(store, payload, replies[..|replies| - 1]);
    }
  }

  /**
   A client that selects the server's platform and type and then asks for every block gets the whole
   image: it is shown the URL and the length, what it puts together is the payload, and the server's
   result is complete.
   */
  lemma SessionDelivers(c: Config, payload: seq<byte>, version: u32, text: seq<byte>)
    requires StoreOf(c.store, payload) && |c.url| < URL_BYTES
    requires |text| + 12 <= MAX_KBOX_DATA && Metadata(text)
    ensures var n := (|payload| + BLOCK_SIZE - 1) / BLOCK_SIZE;
      var s := Run(c, Session(c, KboxRequest(c.platform, version, c.baseType, text), n));
      && !s.raised && |s.replies| == 2 + n
      && s.replies[0].CommandReply? && CarriesUrl(s.replies[0].packet, c.url)
      && s.replies[1].HelloReply? && Announces(s.replies[1].packet, |payload|)
      && Assembled(|payload|, s.replies[2..]) == payload
      && Completed(c, s)
  {
    hide StoreOf, ParseKbox, ParseDataRequest, BuildHello, BuildBlock, BuildKboxResponse, Metadata, Run, Session,
      CarriesUrl, Announces, Received, Balanced;
    var selection := KboxRequest(c.platform, version, c.baseType, text);
    SelectionRoundTrip(c.platform, version, c.baseType, text);
    StoreBlocks(c.store, payload);
    var n := |c.store.sums|;
    SessionRuns(c, payload, selection, n);
    var events := Session(c, selection, n);
    var s := Run(c, events);
    ResponseIs(c.url);
    HelloIs(c.store, payload);
    AssembledBlocks(c.store, payload, s.replies[2..]);
    BlocksRestore(c.store, payload);
    forall i | 0 <= i < n
      ensures BlockReply(i, BuildBlock(c.store, i)) in s.replies
    {
      assert s.replies[2 + i] == BlockReply(i, BuildBlock(c.store, i));
    }
    CompleteIff(c, events);
  }
}
