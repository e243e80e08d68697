/**
 The bench TFTP server: telephony/tftp_profile.py, over every sequence of datagrams and timeouts.
 A small protocol automaton says what a run may show; every run of the server is one of its runs.
 */
module Tftp {
  import opened Bytes
  import opened Wrappers
  import Pieces

  const BLOCK_SIZE := 512
  const MAX_OPCODE_LEN := 600
  const MAX_BLOCK_NUMBER := 0xFFFF
  const OCTET: seq<int> := [0x6F, 0x63, 0x74, 0x65, 0x74]

  datatype Peer = Peer(host: int, port: int)

  // ----- Blocks -----

  function Chunks(payload: seq<byte>): (blocks: seq<seq<byte>>)
    decreases |payload|
  {
    if payload == [] then []
    else if |payload| <= BLOCK_SIZE then [payload]
    else [payload[..BLOCK_SIZE]] + Chunks(payload[BLOCK_SIZE..])
  }

  /** `blockize`, by its slice starts. */
  method Blockize(payload: seq<byte>) returns (blocks: seq<seq<byte>>)
    ensures blocks == if payload == [] then [[]] else Chunks(payload)
  {
    if |payload| == 0 {
      return [[]];
    }
    blocks := [];
    var i := 0;
    while i < |payload|
      invariant i <= |payload| || i < |payload| + BLOCK_SIZE
      invariant i < |payload| ==> blocks + Chunks(payload[i..]) == Chunks(payload)
      invariant i >= |payload| ==> blocks == Chunks(payload)
    {
      var end := if i + BLOCK_SIZE <= |payload| then i + BLOCK_SIZE else |payload|;
      assert i + BLOCK_SIZE < |payload| ==> payload[i..][BLOCK_SIZE..] == payload[i + BLOCK_SIZE..];
      assert payload[i..end] == if |payload[i..]| <= BLOCK_SIZE then payload[i..] else payload[i..][..BLOCK_SIZE];
      blocks := blocks + [payload[i..end]];
      i := i + BLOCK_SIZE;
    }
  }

  /** The blocks that a transfer keeps: a short last block is followed by an empty one. */
  function BlocksOf(payload: seq<byte>): (blocks: seq<seq<byte>>)
    ensures blocks != []
  {
    if payload == [] then [[]]
    else
      ChunksNonempty(payload);
      var blocks := Chunks(payload);
      if |blocks[|blocks| - 1]| < BLOCK_SIZE then blocks + [[]] else blocks
  }

  /** What goes over the wire: the blocks of the payload and then an empty one. */
  function Stream(payload: seq<byte>): seq<seq<byte>> {
    Chunks(payload) + [[]]
  }

  lemma {:induction false} ChunksNonempty(payload: seq<byte>)
    requires payload != []
    ensures Chunks(payload) != []
    ensures forall i :: 0 <= i < |Chunks(payload)| ==> 0 < |Chunks(payload)[i]| <= BLOCK_SIZE
    ensures forall i :: 0 <= i < |Chunks(payload)| - 1 ==> |Chunks(payload)[i]| == BLOCK_SIZE
    decreases |payload|
  {
    if |payload| > BLOCK_SIZE {
      ChunksNonempty(payload[BLOCK_SIZE..]);
    }
  }

  /** The stream carries the whole payload and ends in its only empty block. */
  lemma StreamCarries(payload: seq<byte>)
    ensures Pieces.Flat(Stream(payload)) == payload
    ensures forall i :: 0 <= i < |Stream(payload)| ==>
      |Stream(payload)[i]| <= BLOCK_SIZE && (Stream(payload)[i] == [] <==> i == |Stream(payload)| - 1)
  {
    hide Chunks;
    JoinChunks(payload);
    var blocks := Chunks(payload);
    assert Stream(payload)[..|blocks|] == blocks;
    if payload != [] {
      ChunksNonempty(payload);
    } else {
      NoChunks();
    }
  }

  lemma NoChunks()
    ensures Chunks([]) == []
  {
  }

  lemma {:induction false} JoinChunks(payload: seq<byte>)
    ensures Pieces.Flat(Chunks(payload)) == payload
    decreases |payload|
  {
    if payload != [] {
      if |payload| <= BLOCK_SIZE {
        assert [payload][..0] == [];
      } else {
        JoinChunks(payload[BLOCK_SIZE..]);
        var first := payload[..BLOCK_SIZE];
        Pieces.FlatCons([first] + Chunks(payload[BLOCK_SIZE..]));
      }
    }
  }

  // ----- Requests -----

  /** The bytes before the first zero, and those after it. */
  function Field(s: seq<byte>): Option<(seq<byte>, seq<byte>)> {
    if s == [] then None
    else if s[0] == 0 then Some(([], s[1..]))
    else match Field(s[1..])
      case None => None
      case Some((field, rest)) => Some(([s[0]] + field, rest))
  }

  /** ASCII decoding with the replacement character. */
  function Ascii(s: seq<byte>): (text: seq<int>)
    ensures |text| == |s|
  {
    seq(|s|, i requires 0 <= i < |s| => if s[i] < 0x80 then s[i] as int else 0xFFFD)
  }

  predicate Allowed(name: seq<int>) {
    && 0x2F !in name && 0x5C !in name
    && !exists i :: 0 < i < |name| && name[i - 1] == 0x2E && name[i] == 0x2E
  }

  /** `split_rrq`: the file name of a well-formed octet read request. */
  function SplitRrq(data: seq<byte>): Option<seq<int>> {
    if |data| < 4 || |data| > MAX_OPCODE_LEN || U16At(data, 0) != 1 then None
    else match Field(data[2..])
      case None => None
      case Some((name, rest)) =>
        match Field(rest)
        case None => None
        case Some((mode, _)) =>
          if name == [] || mode == [] || !Allowed(Ascii(name)) || Ascii(mode) != OCTET then None else Some(Ascii(name))
  }

  /** Names that some read request can ask for: what ASCII decoding gives of a bounded, allowed field. */
  predicate Requestable(file: seq<int>) {
    && 0 < |file| <= MAX_OPCODE_LEN - 9 && Allowed(file)
    && forall i :: 0 <= i < |file| ==> 0 < file[i] < 0x80 || file[i] == 0xFFFD
  }

  // ----- The server -----

  datatype Config = Config(expected: int, payloads: map<seq<int>, seq<byte>>, retransmits: nat)

  datatype Transfer = Transfer(
    peer: Peer, file: seq<int>, blocks: seq<seq<byte>>, next: nat, pendingAck: nat, retries: nat, acked: nat,
    terminator: bool)

  /** What a run shows: datagrams sent and log lines. */
  datatype Output =
    | Started(peer: Peer, file: seq<int>)
    | Sent(peer: Peer, number: nat, chunk: seq<byte>)
    | Accepted(peer: Peer, number: nat)
    | Overdue
    | Complete(blocks: nat, acked: nat)
    | Expired
    | Abandoned
    | Rejected(peer: Peer, code: nat)
    | Crashed

  datatype State = State(
    transfer: Option<Transfer>, requests: nat, errors: nat, byteCount: nat, crashed: bool, out: seq<Output>)

  /** A datagram, or the look at the clock at the head of the loop. */
  datatype Event = Datagram(peer: Peer, data: seq<byte>) | Look(late: bool)

  const INITIAL := State(None, 0, 0, 0, false, [])

  function Show(s: State, o: Output): State {
    s.(out := s.out + [o])
  }

  /** `_reject`. */
  function Reject(s: State, peer: Peer, code: nat): State {
    Show(s.(errors := s.errors + 1), Rejected(peer, code))
  }

  /** `_send_next_block`; `encode_data` raises on a block number that does not fit 16 bits. */
  function SendNext(s: State): (r: State)
    requires s.transfer.Some? && s.transfer.value.next >= 1
    ensures r.transfer.Some?
  {
    var t := s.transfer.value;
    var index := t.next - 1;
    var chunk := if index < |t.blocks| then t.blocks[index] else [];
    var terminator := if index < |t.blocks| then index == |t.blocks| - 1 && |chunk| < BLOCK_SIZE else true;
    var updated := s.(transfer := Some(t.(terminator := terminator, pendingAck := t.next)));
    if t.next > MAX_BLOCK_NUMBER || |chunk| > BLOCK_SIZE then Show(updated.(crashed := true), Crashed)
    else Show(updated, Sent(t.peer, t.next, chunk)).(byteCount := s.byteCount + |chunk|)
  }

  /** `_handle_rrq` on a parsed request, or on a malformed one. */
  function ServeFile(c: Config, s: State, peer: Peer, request: Option<seq<int>>): State {
    match request
    case None => Reject(s, peer, 4)
    case Some(file) =>
      if s.transfer.Some? && s.transfer.value.peer.host != peer.host then Reject(s, peer, 4)
      else
        var free := if s.transfer.Some? then Show(s.(transfer := None), Abandoned) else s;
        if file !in c.payloads then Reject(free, peer, 1)
        else
          var t := Transfer(peer, file, BlocksOf(c.payloads[file]), 1, 0, 0, 0, false);
          SendNext(Show(free.(requests := free.requests + 1, transfer := Some(t)), Started(peer, file)))
  }

  /** `_handle_rrq`. */
  function HandleRrq(c: Config, s: State, peer: Peer, data: seq<byte>): State {
    ServeFile(c, s, peer, SplitRrq(data))
  }

  /** `_handle_ack`. */
  function HandleAck(s: State, peer: Peer, data: seq<byte>): State
    requires s.transfer.Some? ==> s.transfer.value.next >= 1
  {
    if s.transfer == None || s.transfer.value.peer != peer then s
    else if |data| != 4 then Reject(s, peer, 4)
    else if U16At(data, 0) != 4 then Reject(s, peer, 4)
    else
      var t := s.transfer.value;
      if U16At(data, 2) != t.pendingAck then SendNext(s)
      else
        var acked := t.(acked := t.acked + 1, retries := 0);
        var accepted := Show(s, Accepted(peer, t.pendingAck));
        if t.terminator then Show(accepted.(transfer := None), Complete(|t.blocks|, acked.acked))
        else SendNext(accepted.(transfer := Some(acked.(next := t.next + 1))))
  }

  /** `handle_datagram`. */
  function HandleDatagram(c: Config, s: State, peer: Peer, data: seq<byte>): State
    requires s.transfer.Some? ==> s.transfer.value.next >= 1
  {
    if peer.host != c.expected then Reject(s, peer, 2)
    else if |data| < 2 then Reject(s, peer, 4)
    else if U16At(data, 0) == 1 then HandleRrq(c, s, peer, data)
    else if U16At(data, 0) == 4 then HandleAck(s, peer, data)
    else Reject(s, peer, 4)
  }

  /** The timeout logic of `run`. */
  function LookAtClock(c: Config, s: State, late: bool): State
    requires s.transfer.Some? ==> s.transfer.value.next >= 1
  {
    if s.transfer == None || !late then s
    else if s.transfer.value.retries >= c.retransmits then
      Show(s.(transfer := None, errors := s.errors + 1), Expired)
    else
      var t := s.transfer.value;
      SendNext(Show(s.(transfer := Some(t.(retries := t.retries + 1))), Overdue))
  }

  function Step(c: Config, s: State, e: Event): (r: State)
    requires s.transfer.Some? ==> s.transfer.value.next >= 1
    ensures r.transfer.Some? ==> r.transfer.value.next >= 1
  {
    if s.crashed then s
    else match e
      case Datagram(peer, data) => HandleDatagram(c, s, peer, data)
      case Look(late) => LookAtClock(c, s, late)
  }

  function Run(c: Config, events: seq<Event>): (r: State)
    ensures r.transfer.Some? ==> r.transfer.value.next >= 1
  {
    if events == [] then INITIAL else Step(c, Run(c, events[..|events| - 1]), events[|events| - 1])
  }

  /** `TftpServer`: its transfer and its counters change in place. */
  class TftpServer {
    const config: Config
    var transfer: Option<Transfer>
    var requests: nat
    var errors: nat
    var byteCount: nat
    var crashed: bool
    var out: seq<Output>

    ghost function Now(): State
      reads this
    {
      State(transfer, requests, errors, byteCount, crashed, out)
    }

    ghost predicate Valid()
      reads this
    {
      transfer.Some? ==> transfer.value.next >= 1
    }

    constructor (config: Config)
      ensures Valid() && Now() == INITIAL && this.config == config
    {
      this.config := config;
      transfer, requests, errors, byteCount, crashed, out := None, 0, 0, 0, false, [];
    }

    method Rejecting(peer: Peer, code: nat)
      modifies this
      ensures Now() == Reject(old(Now()), peer, code)
    {
      errors := errors + 1;
      out := out + [Rejected(peer, code)];
    }

    method SendNextBlock()
      requires Valid() && transfer.Some?
      modifies this
      ensures Valid() && Now() == SendNext(old(Now()))
    {
      var t := transfer.value;
      var index := t.next - 1;
      var chunk: seq<byte>, terminator := [], true;
      if index < |t.blocks| {
        chunk := t.blocks[index];
        terminator := index == |t.blocks| - 1 && |chunk| < BLOCK_SIZE;
      }
      transfer := Some(t.(terminator := terminator, pendingAck := t.next));
      if t.next > MAX_BLOCK_NUMBER || |chunk| > BLOCK_SIZE {
        crashed := true;
        out := out + [Crashed];
        return;
      }
      out := out + [Sent(t.peer, t.next, chunk)];
      byteCount := byteCount + |chunk|;
    }

    method HandlingRrq(peer: Peer, data: seq<byte>)
      requires Valid()
      modifies this
      ensures Valid() && Now() == HandleRrq(config, old(Now()), peer, data)
    {
      hide SplitRrq, Chunks;
      var name := SplitRrq(data);
      if name == None {
        Rejecting(peer, 4);
        return;
      }
      var file := name.value;
      if transfer.Some? {
        if transfer.value.peer.host != peer.host {
          Rejecting(peer, 4);
          return;
        }
        transfer := None;
        out := out + [Abandoned];
      }
      if file !in config.payloads {
        Rejecting(peer, 1);
        return;
      }
      requests := requests + 1;
      var blocks := Blockize(config.payloads[file]);
      if config.payloads[file] != [] {
        ChunksNonempty(config.payloads[file]);
      }
      if blocks != [] && blocks[|blocks| - 1] != [] && |blocks[|blocks| - 1]| < BLOCK_SIZE {
        blocks := blocks + [[]];
      }
      transfer := Some(Transfer(peer, file, blocks, 1, 0, 0, 0, false));
      out := out + [Started(peer, file)];
      SendNextBlock();
    }

    method HandlingAck(peer: Peer, data: seq<byte>)
      requires Valid()
      modifies this
      ensures Valid() && Now() == HandleAck(old(Now()), peer, data)
    {
      if transfer == None || transfer.value.peer != peer {
        return;
      }
      if |data| != 4 || U16At(data, 0) != 4 {
        Rejecting(peer, 4);
        return;
      }
      var t := transfer.value;
      var expected := t.pendingAck;
      if U16At(data, 2) != expected {
        SendNextBlock();
        return;
      }
      t := t.(acked := t.acked + 1, retries := 0);
      transfer := Some(t);
      out := out + [Accepted(peer, expected)];
      if t.terminator {
        transfer := None;
        out := out + [Complete(|t.blocks|, t.acked)];
        return;
      }
      transfer := Some(t.(next := t.next + 1));
      SendNextBlock();
    }

    method HandlingDatagram(peer: Peer, data: seq<byte>)
      requires Valid()
      modifies this
      ensures Valid() && Now() == HandleDatagram(config, old(Now()), peer, data)
    {
      if peer.host != config.expected {
        Rejecting(peer, 2);
      } else if |data| < 2 {
        Rejecting(peer, 4);
      } else if U16At(data, 0) == 1 {
        HandlingRrq(peer, data);
      } else if U16At(data, 0) == 4 {
        HandlingAck(peer, data);
      } else {
        Rejecting(peer, 4);
      }
    }

    method Looking(late: bool)
      requires Valid()
      modifies this
      ensures Valid() && Now() == LookAtClock(config, old(Now()), late)
    {
      if transfer.Some? && late {
        var t := transfer.value;
        if t.retries >= config.retransmits {
          transfer := None;
          errors := errors + 1;
          out := out + [Expired];
        } else {
          transfer := Some(t.(retries := t.retries + 1));
          out := out + [Overdue];
          SendNextBlock();
        }
      }
    }

    /** The loop of `run` over what the clock and the socket bring; a raised error ends it. */
    method Running(events: seq<Event>)
      requires Now() == INITIAL
      modifies this
      ensures Valid() && Now() == Run(config, events)
    {
      hide HandleDatagram, LookAtClock;
      for i := 0 to |events|
        invariant Valid() && Now() == Run(config, events[..i])
      {
        assert events[..i + 1][..i] == events[..i];
        if !crashed {
          match events[i]
          case Datagram(peer, data) =>
            HandlingDatagram(peer, data);
          case Look(late) =>
            Looking(late);
        }
      }
      assert events[..|events|] == events;
    }
  }

  // ----- The protocol -----

  /**
   The automaton: idle, or carrying a payload to a peer with so many blocks accepted, the next one
   sent or not, and so many resends since the last acknowledgement.
   */
  datatype Phase = Idle | Active(peer: Peer, payload: seq<byte>, accepted: nat, sent: bool, overdue: nat) | Dead

  /** The only outputs that a phase allows, and the phase after them. */
  function Move(c: Config, p: Phase, o: Output): Option<Phase> {
    match o
    case Started(peer, file) =>
      if p == Idle && peer.host == c.expected && file in c.payloads && Requestable(file)
      then Some(Active(peer, c.payloads[file], 0, false, 0)) else None
    case Sent(peer, number, chunk) =>
      if p.Active? && peer == p.peer && number == p.accepted + 1 <= |Stream(p.payload)|
        && chunk == Stream(p.payload)[number - 1]
      then Some(p.(sent := true)) else None
    case Accepted(peer, number) =>
      if p.Active? && peer == p.peer && p.sent && number == p.accepted + 1
      then Some(p.(accepted := number, sent := false, overdue := 0)) else None
    case Overdue =>
      if p.Active? && p.overdue < c.retransmits then Some(p.(overdue := p.overdue + 1)) else None
    case Complete(_, acked) =>
      if p.Active? && acked == p.accepted == |Stream(p.payload)| then Some(Idle) else None
    case Expired =>
      if p.Active? && p.overdue == c.retransmits then Some(Idle) else None
    case Abandoned =>
      if p.Active? then Some(Idle) else None
    case Rejected(_, _) =>
      if p != Dead then Some(p) else None
    case Crashed =>
      if p.Active? && p.accepted == MAX_BLOCK_NUMBER < |Stream(p.payload)| then Some(Dead) else None
  }

  function Follow(c: Config, out: seq<Output>): Option<Phase> {
    if out == [] then Some(Idle)
    else match Follow(c, out[..|out| - 1])
      case None => None
      case Some(p) => Move(c, p, out[|out| - 1])
  }

  /** The server's fields stand for the phase. */
  ghost predicate Stands(c: Config, s: State, p: Phase) {
    && (s.crashed <==> p == Dead)
    && (!s.crashed ==> match s.transfer
      case None => p == Idle
      case Some(t) =>
        && p.Active? && p.sent && t.peer == p.peer && t.peer.host == c.expected
        && t.blocks == BlocksOf(p.payload)
        && t.pendingAck == t.next == p.accepted + 1 && t.acked == p.accepted
        && t.next <= |Stream(p.payload)| && t.next <= MAX_BLOCK_NUMBER && t.retries == p.overdue <= c.retransmits
        && (t.terminator <==> t.next == |Stream(p.payload)|))
  }

  /** The server before it sends: its number is right, its last block flag is not set yet. */
  ghost predicate Ready(c: Config, s: State, p: Phase) {
    && !s.crashed && s.transfer.Some? && p.Active?
    && var t := s.transfer.value;
      && t.peer == p.peer && t.peer.host == c.expected && t.blocks == BlocksOf(p.payload)
      && t.next == p.accepted + 1 <= |Stream(p.payload)| && t.next <= MAX_BLOCK_NUMBER + 1 && t.acked == p.accepted
      && t.retries == p.overdue <= c.retransmits
  }

  /** The sending rule picks the stream's blocks, and knows the last. */
  lemma SendPicks(payload: seq<byte>, index: nat)
    requires index < |Stream(payload)|
    ensures var blocks := BlocksOf(payload);
      var chunk := if index < |blocks| then blocks[index] else [];
      && chunk == Stream(payload)[index] && |chunk| <= BLOCK_SIZE
      && ((index < |blocks| ==> index == |blocks| - 1 && |chunk| < BLOCK_SIZE) <==> index == |Stream(payload)| - 1)
  {
    if payload != [] {
      ChunksNonempty(payload);
    }
  }

  lemma FollowMore(c: Config, out: seq<Output>, o: Output)
    ensures Follow(c, out).Some? ==> Follow(c, out + [o]) == Move(c, Follow(c, out).value, o)
  {
    assert (out + [o])[..|out|] == out;
  }

  lemma SendStands(c: Config, s: State, p: Phase)
    requires Ready(c, s, p) && Follow(c, s.out) == Some(p)
    ensures var r := SendNext(s); Follow(c, r.out).Some? && Stands(c, r, Follow(c, r.out).value)
  {
    hide Stream, BlocksOf;
    var t := s.transfer.value;
    SendPicks(p.payload, t.next - 1);
    FollowMore(c, s.out, SendNext(s).out[|s.out|]);
  }

  lemma RrqStands(c: Config, s: State, p: Phase, peer: Peer, file: Option<seq<int>>)
    requires Follow(c, s.out) == Some(p) && Stands(c, s, p) && !s.crashed && peer.host == c.expected
    requires file.Some? ==> Requestable(file.value)
    ensures var r := ServeFile(c, s, peer, file); Follow(c, r.out).Some? && Stands(c, r, Follow(c, r.out).value)
  {
    hide Stream, BlocksOf, SendNext, Follow, Requestable;
    FollowMore(c, s.out, Rejected(peer, 4));
    var free := if s.transfer.Some? then Show(s.(transfer := None), Abandoned) else s;
    FollowMore(c, s.out, Abandoned);
    FollowMore(c, free.out, Rejected(peer, 1));
    if file.Some? && file.value in c.payloads {
      FollowMore(c, free.out, Started(peer, file.value));
      var t := Transfer(peer, file.value, BlocksOf(c.payloads[file.value]), 1, 0, 0, 0, false);
      var started := Show(free.(requests := free.requests + 1, transfer := Some(t)), Started(peer, file.value));
      StreamNonempty(c.payloads[file.value]);
      SendStands(c, started, Active(peer, c.payloads[file.value], 0, false, 0));
    }
  }

  lemma StreamNonempty(payload: seq<byte>)
    ensures |Stream(payload)| >= 1
  {
  }

  lemma AckStands(c: Config, s: State, p: Phase, peer: Peer, data: seq<byte>)
    requires Follow(c, s.out) == Some(p) && Stands(c, s, p) && !s.crashed
    ensures var r := HandleAck(s, peer, data); Follow(c, r.out).Some? && Stands(c, r, Follow(c, r.out).value)
  {
    hide Stream, BlocksOf, SendNext, Follow, U16At;
    FollowMore(c, s.out, Rejected(peer, 4));
    if s.transfer.Some? && s.transfer.value.peer == peer && |data| == 4 && U16At(data, 0) == 4 {
      var t := s.transfer.value;
      if U16At(data, 2) != t.pendingAck {
        SendStands(c, s, p);
      } else {
        FollowMore(c, s.out, Accepted(peer, t.pendingAck));
        var accepted := Show(s, Accepted(peer, t.pendingAck));
        if t.terminator {
          FollowMore(c, accepted.out, Complete(|t.blocks|, t.acked + 1));
        } else {
          var next := accepted.(transfer := Some(t.(acked := t.acked + 1, retries := 0, next := t.next + 1)));
          SendStands(c, next, p.(accepted := t.next, sent := false, overdue := 0));
        }
      }
    }
  }

  lemma LookStands(c: Config, s: State, p: Phase, late: bool)
    requires Follow(c, s.out) == Some(p) && Stands(c, s, p) && !s.crashed
    ensures var r := LookAtClock(c, s, late); Follow(c, r.out).Some? && Stands(c, r, Follow(c, r.out).value)
  {
    hide Stream, BlocksOf, SendNext, Follow;
    FollowMore(c, s.out, Expired);
    FollowMore(c, s.out, Overdue);
    if s.transfer.Some? && late && s.transfer.value.retries < c.retransmits {
      var t := s.transfer.value;
      SendStands(c, Show(s.(transfer := Some(t.(retries := t.retries + 1))), Overdue), p.(overdue := p.overdue + 1));
    }
  }

  /**
   Every run of the server is a run of the protocol, and its fields stand for the phase: the pending
   acknowledgement is the next block, all before it are acknowledged, in order, and so on.
   */
  lemma {:induction false} EveryRun(c: Config, events: seq<Event>)
    ensures var s := Run(c, events); Follow(c, s.out).Some? && Stands(c, s, Follow(c, s.out).value)
  {
    hide ServeFile, HandleAck, LookAtClock, Stands, Follow, U16At, SplitRrq, Requestable;
    if events == [] {
      EmptyRun(c);
    } else {
      var n := |events| - 1;
      EveryRun(c, events[..n]);
      var s := Run(c, events[..n]);
      var p := Follow(c, s.out).value;
      if !s.crashed {
        match events[n]
        case Datagram(peer, data) =>
          RejectStands(c, s, p, peer, 2);
          RejectStands(c, s, p, peer, 4);
          AckStands(c, s, p, peer, data);
          if peer.host == c.expected {
            if SplitRrq(data).Some? {
              AskedRequestable(data);
            }
            RrqStands(c, s, p, peer, SplitRrq(data));
          }
        case Look(late) =>
          LookStands(c, s, p, late);
      }
    }
  }

  lemma EmptyRun(c: Config)
    ensures Follow(c, INITIAL.out) == Some(Idle) && Stands(c, INITIAL, Idle)
  {
  }

  lemma RejectStands(c: Config, s: State, p: Phase, peer: Peer, code: nat)
    requires Follow(c, s.out) == Some(p) && Stands(c, s, p) && !s.crashed
    ensures var r := Reject(s, peer, code); Follow(c, r.out) == Some(p) && Stands(c, r, p)
  {
    hide Follow;
    FollowMore(c, s.out, Rejected(peer, code));
  }

  // ----- What every event shows -----

  /** The send of the block after the accepted ones, or the crash when its number does not fit. */
  function NextSend(p: Phase): Output
    requires p.Active? && p.accepted < |Stream(p.payload)|
  {
    if p.accepted < MAX_BLOCK_NUMBER then Sent(p.peer, p.accepted + 1, Stream(p.payload)[p.accepted]) else Crashed
  }

  /** How many blocks a transfer keeps: a whole last block needs no empty one behind it until it is sent. */
  function KeptBlocks(payload: seq<byte>): int {
    (|payload| + BLOCK_SIZE - 1) / BLOCK_SIZE + if payload != [] && |payload| % BLOCK_SIZE == 0 then 0 else 1
  }

  /** What an acknowledgement of block `n` from the peer shows. */
  function AckShows(p: Phase, n: nat): seq<Output>
    requires p.Active? && p.accepted < |Stream(p.payload)|
  {
    if n != p.accepted + 1 then [NextSend(p)]
    else
      [Accepted(p.peer, n)]
      + if n == |Stream(p.payload)| then [Complete(KeptBlocks(p.payload), n)]
        else [NextSend(p.(accepted := n))]
  }

  /** What a read request from the expected host shows. */
  function RequestShows(c: Config, p: Phase, peer: Peer, file: Option<seq<int>>): seq<Output> {
    if file == None then [Rejected(peer, 4)]
    else
      (if p.Active? then [Abandoned] else [])
      + if file.value !in c.payloads then [Rejected(peer, 1)]
        else [Started(peer, file.value), Sent(peer, 1, Stream(c.payloads[file.value])[0])]
  }

  /** What an event shows in a phase. */
  function Shown(c: Config, p: Phase, e: Event): seq<Output>
    requires p.Active? ==> p.accepted < |Stream(p.payload)|
  {
    if p == Dead then []
    else match e
      case Look(late) =>
        if !p.Active? || !late then []
        else if p.overdue < c.retransmits then [Overdue, NextSend(p)]
        else [Expired]
      case Datagram(peer, data) =>
        if peer.host != c.expected then [Rejected(peer, 2)]
        else if |data| < 2 || (U16At(data, 0) != 1 && U16At(data, 0) != 4) then [Rejected(peer, 4)]
        else if U16At(data, 0) == 1 then RequestShows(c, p, peer, SplitRrq(data))
        else if !p.Active? || peer != p.peer then []
        else if |data| != 4 then [Rejected(peer, 4)]
        else AckShows(p, U16At(data, 2))
  }

  lemma KeptBlocksAre(payload: seq<byte>)
    ensures |BlocksOf(payload)| == KeptBlocks(payload)
  {
    StreamLength(payload);
    if payload != [] {
      ChunksNonempty(payload);
      LastChunk(payload);
    }
  }

  lemma {:induction false} LastChunk(payload: seq<byte>)
    requires payload != []
    ensures Chunks(payload) != []
    ensures |Chunks(payload)[|Chunks(payload)| - 1]| == BLOCK_SIZE <==> |payload| % BLOCK_SIZE == 0
    decreases |payload|
  {
    if |payload| > BLOCK_SIZE {
      LastChunk(payload[BLOCK_SIZE..]);
    }
  }

  lemma SendShows(c: Config, s: State, p: Phase)
    requires Ready(c, s, p)
    ensures SendNext(s).out == s.out + [NextSend(p)]
  {
    hide Stream, BlocksOf;
    SendPicks(p.payload, p.accepted);
  }

  lemma AckShowsOn(c: Config, s: State, p: Phase, data: seq<byte>)
    requires Stands(c, s, p) && !s.crashed && p.Active? && |data| == 4 && U16At(data, 0) == 4
    ensures p.accepted < |Stream(p.payload)|
    ensures HandleAck(s, p.peer, data).out == s.out + AckShows(p, U16At(data, 2))
  {
    hide Stream, BlocksOf, SendNext, U16At, KeptBlocks;
    var t := s.transfer.value;
    if U16At(data, 2) != t.pendingAck {
      SendShows(c, s, p);
    } else {
      var accepted := Show(s, Accepted(p.peer, t.pendingAck));
      KeptBlocksAre(p.payload);
      if !t.terminator {
        var next := accepted.(transfer := Some(t.(acked := t.acked + 1, retries := 0, next := t.next + 1)));
        SendShows(c, next, p.(accepted := t.next, sent := false, overdue := 0));
        assert s.out + [Accepted(p.peer, t.pendingAck)] + [NextSend(p.(accepted := t.next))]
          == s.out + ([Accepted(p.peer, t.pendingAck)] + [NextSend(p.(accepted := t.next))]);
      } else {
        assert s.out + [Accepted(p.peer, t.pendingAck)] + [Complete(|t.blocks|, t.next)]
          == s.out + ([Accepted(p.peer, t.pendingAck)] + [Complete(|t.blocks|, t.next)]);
      }
    }
  }

  lemma RequestShowsOn(c: Config, s: State, p: Phase, peer: Peer, file: Option<seq<int>>)
    requires Stands(c, s, p) && !s.crashed && peer.host == c.expected
    ensures ServeFile(c, s, peer, file).out == s.out + RequestShows(c, p, peer, file)
  {
    hide Stream, BlocksOf, SendNext;
    if file.Some? {
      var lead := if p.Active? then [Abandoned] else [];
      var free := if s.transfer.Some? then Show(s.(transfer := None), Abandoned) else s;
      assert free.out == s.out + lead;
      if file.value in c.payloads {
        var payload := c.payloads[file.value];
        var t := Transfer(peer, file.value, BlocksOf(payload), 1, 0, 0, 0, false);
        var started := Show(free.(requests := free.requests + 1, transfer := Some(t)), Started(peer, file.value));
        StreamNonempty(payload);
        SendShows(c, started, Active(peer, payload, 0, false, 0));
        assert s.out + lead + [Started(peer, file.value)] + [Sent(peer, 1, Stream(payload)[0])]
          == s.out + (lead + [Started(peer, file.value), Sent(peer, 1, Stream(payload)[0])]);
      } else {
        assert s.out + lead + [Rejected(peer, 1)] == s.out + (lead + [Rejected(peer, 1)]);
      }
    }
  }

  lemma LookShowsOn(c: Config, s: State, p: Phase, late: bool)
    requires Stands(c, s, p) && !s.crashed && (p.Active? ==> p.accepted < |Stream(p.payload)|)
    ensures LookAtClock(c, s, late).out == s.out + Shown(c, p, Look(late))
  {
    hide Stream, BlocksOf, SendNext;
    if s.transfer.Some? && late && p.overdue < c.retransmits {
      var t := s.transfer.value;
      SendShows(c, Show(s.(transfer := Some(t.(retries := t.retries + 1))), Overdue), p.(overdue := p.overdue + 1));
      assert s.out + [Overdue] + [NextSend(p)] == s.out + [Overdue, NextSend(p)];
    }
  }

  lemma ActiveBounds(c: Config, s: State, p: Phase)
    requires Stands(c, s, p)
    ensures p.Active? ==> p.accepted < |Stream(p.payload)| && p.peer.host == c.expected
  {
    hide Stream, BlocksOf;
  }

  /**
   In every run every event shows exactly what the phase of the outputs so far calls for: a late look
   resends the pending block or gives up, a wrong acknowledgement resends it, the right one brings the
   next block or completes, a request for a served file starts it with its first block, and so on.
   */
  lemma EventShows(c: Config, events: seq<Event>, e: Event)
    ensures var s := Run(c, events);
      && Follow(c, s.out).Some?
      && var p := Follow(c, s.out).value;
        && (p.Active? ==> p.accepted < |Stream(p.payload)|)
        && Run(c, events + [e]).out == s.out + Shown(c, p, e)
  {
    hide Stands, Follow, ServeFile, HandleAck, LookAtClock, SplitRrq, U16At, Stream, RequestShows, AckShows;
    EveryRun(c, events);
    var s := Run(c, events);
    var p := Follow(c, s.out).value;
    ActiveBounds(c, s, p);
    assert (events + [e])[..|events|] == events;
    StandsAlive(c, s, p);
    if !s.crashed {
      match e
      case Look(late) =>
        LookShowsOn(c, s, p, late);
      case Datagram(peer, data) =>
        if peer.host == c.expected && |data| >= 2 && U16At(data, 0) == 1 {
          RequestShowsOn(c, s, p, peer, SplitRrq(data));
        }
        if peer.host == c.expected && |data| >= 2 && U16At(data, 0) == 4 {
          StrangeAck(c, s, p, peer, data);
          if p.Active? && peer == p.peer && |data| == 4 {
            AckShowsOn(c, s, p, data);
          }
        }
    }
  }

  lemma StandsAlive(c: Config, s: State, p: Phase)
    requires Stands(c, s, p)
    ensures s.crashed <==> p == Dead
  {
  }

  lemma StrangeAck(c: Config, s: State, p: Phase, peer: Peer, data: seq<byte>)
    requires Stands(c, s, p) && !s.crashed
    ensures !p.Active? || peer != p.peer ==> HandleAck(s, peer, data).out == s.out
    ensures p.Active? && peer == p.peer && |data| != 4 ==> HandleAck(s, peer, data).out == s.out + [Rejected(peer, 4)]
  {
    hide SendNext, U16At, Stream, BlocksOf;
  }

  // ----- The one way to crash -----

  lemma {:induction false} AlwaysFits(c: Config, out: seq<Output>)
    requires forall file :: file in c.payloads && Requestable(file) ==> |Stream(c.payloads[file])| <= MAX_BLOCK_NUMBER
    requires Follow(c, out).Some?
    ensures Follow(c, out).value != Dead
    ensures Follow(c, out).value.Active? ==> |Stream(Follow(c, out).value.payload)| <= MAX_BLOCK_NUMBER
  {
    hide Stream, Requestable;
    if out != [] {
      AlwaysFits(c, out[..|out| - 1]);
    }
  }

  /** The acknowledgement of block `n`. */
  function AckData(n: u16): seq<byte> {
    Be16(4) + Be16(n)
  }

  lemma AckRead(n: u16)
    ensures |AckData(n)| == 4 && U16At(AckData(n), 0) == 4 && U16At(AckData(n), 2) == n
  {
    hide Value, Digits;
    assert AckData(n)[0..2] == Be16(4) && AckData(n)[2..4] == Be16(n);
    HalfWordRoundTrip(4);
    HalfWordRoundTrip(n);
  }

  /** A request and the acknowledgements of the first `n` blocks. */
  function Patient(peer: Peer, request: seq<byte>, n: nat): seq<Event>
    requires n <= MAX_BLOCK_NUMBER
  {
    if n == 0 then [Datagram(peer, request)] else Patient(peer, request, n - 1) + [Datagram(peer, AckData(n))]
  }

  /** Block `n + 1` of the payload was sent and waits for its acknowledgement. */
  ghost predicate Waiting(s: State, peer: Peer, payload: seq<byte>, n: nat) {
    && !s.crashed && s.transfer.Some?
    && var t := s.transfer.value;
      && t.peer == peer && t.blocks == BlocksOf(payload) && t.next == t.pendingAck == n + 1
      && (t.terminator <==> n + 1 == |Stream(payload)|)
  }

  /** Sending block `n + 1` works exactly while its number fits 16 bits. */
  lemma SendWaits(s: State, peer: Peer, payload: seq<byte>, n: nat)
    requires !s.crashed && s.transfer.Some? && s.transfer.value.peer == peer
    requires s.transfer.value.blocks == BlocksOf(payload) && s.transfer.value.next == n + 1 <= |Stream(payload)|
    ensures n < MAX_BLOCK_NUMBER ==> Waiting(SendNext(s), peer, payload, n)
    ensures n >= MAX_BLOCK_NUMBER ==> SendNext(s).crashed
  {
    hide Stream, BlocksOf;
    SendPicks(payload, n);
  }

  lemma {:induction false} PatientCrashes(c: Config, peer: Peer, request: seq<byte>, file: seq<int>, n: nat)
    requires peer.host == c.expected && SplitRrq(request) == Some(file) && file in c.payloads
    requires n <= MAX_BLOCK_NUMBER < |Stream(c.payloads[file])|
    ensures n < MAX_BLOCK_NUMBER ==> Waiting(Run(c, Patient(peer, request, n)), peer, c.payloads[file], n)
    ensures n == MAX_BLOCK_NUMBER ==> Run(c, Patient(peer, request, n)).crashed
  {
    hide Stream, BlocksOf, SendNext, SplitRrq, U16At, AckData;
    var payload := c.payloads[file];
    if n == 0 {
      var t := Transfer(peer, file, BlocksOf(payload), 1, 0, 0, 0, false);
      SendWaits(Show(INITIAL.(requests := 1, transfer := Some(t)), Started(peer, file)), peer, payload, 0);
      RequestOpcode(request);
      assert Patient(peer, request, 0)[..0] == [];
    } else {
      PatientCrashes(c, peer, request, file, n - 1);
      var before := Patient(peer, request, n - 1);
      assert Patient(peer, request, n)[..|before|] == before;
      var s := Run(c, before);
      AckRead(n);
      var t := s.transfer.value;
      var accepted := Show(s, Accepted(peer, t.pendingAck));
      var next := accepted.(transfer := Some(t.(acked := t.acked + 1, retries := 0, next := t.next + 1)));
      SendWaits(next, peer, payload, n);
    }
  }

  lemma RequestOpcode(data: seq<byte>)
    requires SplitRrq(data).Some?
    ensures |data| >= 2 && U16At(data, 0) == 1
  {
  }

  /**
   The server can crash exactly if a payload that some read request can ask for takes more blocks than
   16 bits number.
   */
  lemma CrashIff(c: Config)
    ensures (exists events :: Run(c, events).crashed) <==>
      exists file :: file in c.payloads && Requestable(file) && |Stream(c.payloads[file])| > MAX_BLOCK_NUMBER
  {
    hide Stream, Requestable, Run, Follow;
    if file :| file in c.payloads && Requestable(file) && |Stream(c.payloads[file])| > MAX_BLOCK_NUMBER {
      var request := RequestFor(file);
      PatientCrashes(c, Peer(c.expected, 0), request, file, MAX_BLOCK_NUMBER);
    } else {
      forall events: seq<Event>
        ensures !Run(c, events).crashed
      {
        EveryRun(c, events);
        AlwaysFits(c, Run(c, events).out);
      }
    }
  }

  /** In bytes: a payload takes one block for each started 512 bytes, and the empty one. */
  lemma {:induction false} StreamLength(payload: seq<byte>)
    ensures |Stream(payload)| == (|payload| + BLOCK_SIZE - 1) / BLOCK_SIZE + 1
    ensures |Stream(payload)| > MAX_BLOCK_NUMBER <==> |payload| > (MAX_BLOCK_NUMBER - 1) * BLOCK_SIZE
    decreases |payload|
  {
    if |payload| > BLOCK_SIZE {
      StreamLength(payload[BLOCK_SIZE..]);
    }
  }

  /** A server whose payloads all fit 16-bit block numbers never crashes. */
  lemma NeverCrashes(c: Config, events: seq<Event>)
    requires forall file :: file in c.payloads ==> |Stream(c.payloads[file])| <= MAX_BLOCK_NUMBER
    ensures !Run(c, events).crashed
  {
    hide Run, Stream, Requestable;
    CrashIff(c);
  }

  // ----- Complete transfers -----

  /** The acknowledgements accepted since the last request. */
  function AcksSince(out: seq<Output>): seq<int> {
    if out == [] then []
    else
      var before := AcksSince(out[..|out| - 1]);
      match out[|out| - 1]
      case Started(_, _) => []
      case Accepted(_, number) => before + [number as int]
      case _ => before
  }

  /** The chunks sent for the first time since the last request. */
  function FirstSends(out: seq<Output>): seq<seq<byte>> {
    if out == [] then []
    else
      var before := FirstSends(out[..|out| - 1]);
      match out[|out| - 1]
      case Started(_, _) => []
      case Sent(_, number, chunk) => if number == |before| + 1 then before + [chunk] else before
      case _ => before
  }

  /** The file of the last request that was accepted. */
  function Asked(out: seq<Output>): Option<seq<int>> {
    if out == [] then None
    else match out[|out| - 1]
      case Started(_, file) => Some(file)
      case _ => Asked(out[..|out| - 1])
  }

  /** In the protocol, the acknowledgements are 1, 2, 3 and so on, and the chunks sent are the stream's front. */
  lemma {:induction false} InOrder(c: Config, out: seq<Output>)
    requires Follow(c, out).Some? && Follow(c, out).value.Active?
    ensures var p := Follow(c, out).value;
      && AcksSince(out) == seq(p.accepted, i => i + 1)
      && p.accepted + (if p.sent then 1 else 0) <= |Stream(p.payload)|
      && FirstSends(out) == Stream(p.payload)[..p.accepted + (if p.sent then 1 else 0)]
      && Asked(out).Some? && Asked(out).value in c.payloads && c.payloads[Asked(out).value] == p.payload
  {
    hide Stream, Requestable;
    var before := out[..|out| - 1];
    if Follow(c, before).value.Active? {
      InOrder(c, before);
    }
  }

  /** What the outputs before a completion have shown. */
  ghost predicate Delivered(c: Config, out: seq<Output>) {
    && Asked(out).Some? && Asked(out).value in c.payloads
    && var payload := c.payloads[Asked(out).value];
      && AcksSince(out) == seq(|Stream(payload)|, i => i + 1)
      && FirstSends(out) == Stream(payload) && Pieces.Flat(FirstSends(out)) == payload
      && FirstSends(out)[|FirstSends(out)| - 1] == []
  }

  lemma CompleteDelivers(c: Config, out: seq<Output>, blocks: nat, acked: nat)
    requires Follow(c, out + [Complete(blocks, acked)]).Some?
    ensures Delivered(c, out)
  {
    hide Stream, AcksSince, FirstSends, Pieces.Flat, Asked;
    assert (out + [Complete(blocks, acked)])[..|out|] == out;
    InOrder(c, out);
    var payload := Follow(c, out).value.payload;
    StreamCarries(payload);
    StreamNonempty(payload);
    assert Stream(payload)[..|Stream(payload)|] == Stream(payload);
  }

  lemma {:induction false} FollowFront(c: Config, out: seq<Output>, i: nat)
    requires i <= |out| && Follow(c, out).Some?
    ensures Follow(c, out[..i]).Some?
  {
    hide Move;
    if i == |out| {
      assert out[..i] == out;
    } else {
      var n := |out| - 1;
      FollowFront(c, out[..n], i);
      assert out[..n][..i] == out[..i];
    }
  }

  /**
   In every run a transfer is only complete after the acknowledgements 1 to n of the n blocks of the
   last file asked for, in order; the blocks sent since the request are then that file's whole
   payload, and the last is empty.
   */
  lemma CompletesDeliver(c: Config, events: seq<Event>, i: nat)
    requires i < |Run(c, events).out| && Run(c, events).out[i].Complete?
    ensures Delivered(c, Run(c, events).out[..i])
  {
    hide Run, Follow, Delivered;
    var out := Run(c, events).out;
    EveryRun(c, events);
    FollowFront(c, out, i + 1);
    assert out[..i + 1] == out[..i] + [Complete(out[i].blocks, out[i].acked)];
    CompleteDelivers(c, out[..i], out[i].blocks, out[i].acked);
  }

  // ----- Requests read back -----

  lemma {:induction false} FieldOf(field: seq<byte>, rest: seq<byte>)
    requires 0 !in field
    ensures Field(field + [0] + rest) == Some((field, rest))
  {
    if field == [] {
      assert field + [0] + rest == [0] + rest;
    } else {
      FieldOf(field[1..], rest);
      assert field[0] in field && [field[0]] + field[1..] == field;
      assert (field + [0] + rest)[1..] == field[1..] + [0] + rest;
    }
  }

  lemma {:induction false} FieldFound(s: seq<byte>)
    requires Field(s).Some?
    ensures var (field, rest) := Field(s).value; 0 !in field && s == field + [0] + rest
  {
    if s[0] != 0 {
      FieldFound(s[1..]);
    }
  }

  /** A read request with some name and mode, and anything after them. */
  function Request(name: seq<byte>, mode: seq<byte>, rest: seq<byte>): seq<byte> {
    [0, 1] + (name + [0] + (mode + [0] + rest))
  }

  /**
   The server takes exactly the datagrams of bounded length that ask in octet mode for a nonempty name
   without a separator and without two dots in a row.
   */
  lemma RequestIff(data: seq<byte>, file: seq<int>)
    ensures SplitRrq(data) == Some(file) <==>
      4 <= |data| <= MAX_OPCODE_LEN && file != [] && Allowed(file)
      && exists name, mode, rest ::
        data == Request(name, mode, rest) && 0 !in name && 0 !in mode && Ascii(name) == file && Ascii(mode) == OCTET
  {
    hide Field, Allowed;
    if SplitRrq(data) == Some(file) {
      FieldFound(data[2..]);
      var (name, more) := Field(data[2..]).value;
      FieldFound(more);
      var (mode, rest) := Field(more).value;
      assert data[0..2] == [0, 1] by {
        OpcodeBytes(data);
      }
      assert data == Request(name, mode, rest);
    }
    forall name, mode, rest | data == Request(name, mode, rest) && 0 !in name && 0 !in mode && Ascii(name) == file
      && Ascii(mode) == OCTET && 4 <= |data| <= MAX_OPCODE_LEN && file != [] && Allowed(file)
      ensures SplitRrq(data) == Some(file)
    {
      FieldOf(name, mode + [0] + rest);
      FieldOf(mode, rest);
      assert data[2..] == name + [0] + (mode + [0] + rest);
      assert data[0..2] == [0, 1];
      assert Value([0, 1][..1]) == 0;
    }
  }

  lemma AskedRequestable(data: seq<byte>)
    requires SplitRrq(data).Some?
    ensures Requestable(SplitRrq(data).value)
  {
    hide Allowed, SplitRrq;
    var file := SplitRrq(data).value;
    RequestIff(data, file);
    var name, mode, rest :|
      data == Request(name, mode, rest) && 0 !in name && 0 !in mode && Ascii(name) == file && Ascii(mode) == OCTET;
    assert |Ascii(mode)| == |mode| == 5 && |data| >= |name| + 9;
    forall i | 0 <= i < |file|
      ensures 0 < file[i] < 0x80 || file[i] == 0xFFFD
    {
      assert file[i] == Ascii(name)[i] && name[i] in name;
    }
  }

  /** A request for a requestable file. */
  lemma RequestFor(file: seq<int>) returns (data: seq<byte>)
    requires Requestable(file)
    ensures SplitRrq(data) == Some(file)
  {
    hide Allowed, SplitRrq;
    var name: seq<byte> := seq(|file|, i requires 0 <= i < |file| => if 0 < file[i] < 0x80 then file[i] else 0x80);
    var mode: seq<byte> := [0x6F, 0x63, 0x74, 0x65, 0x74];
    data := Request(name, mode, []);
    assert Ascii(name) == file && Ascii(mode) == OCTET;
    RequestIff(data, file);
  }

  /** The requestable names are those that some datagram asks for. */
  lemma RequestableIff(file: seq<int>)
    ensures Requestable(file) <==> exists data :: SplitRrq(data) == Some(file)
  {
    hide SplitRrq, Requestable;
    if Requestable(file) {
      var data := RequestFor(file);
    }
    forall data | SplitRrq(data) == Some(file)
      ensures Requestable(file)
    {
      AskedRequestable(data);
    }
  }

  lemma OpcodeBytes(data: seq<byte>)
    requires |data| >= 2 && U16At(data, 0) == 1
    ensures data[0..2] == [0, 1]
  {
    HalfWordRewrite(data, 0);
    assert Digits(0, 1) == [0] && Digits(1, 2) == Digits(0, 1) + [1];
  }

  // ----- The counters -----

  /** What `run` returns: requests, errors and payload bytes. */
  datatype Books = Books(requests: nat, errors: nat, bytes: nat)

  /** The counters as the outputs tell them: accepted requests, rejections and timeouts, and bytes sent. */
  function Told(out: seq<Output>): Books {
    if out == [] then Books(0, 0, 0)
    else
      var b := Told(out[..|out| - 1]);
      match out[|out| - 1]
      case Started(_, _) => b.(requests := b.requests + 1)
      case Sent(_, _, chunk) => b.(bytes := b.bytes + |chunk|)
      case Rejected(_, _) => b.(errors := b.errors + 1)
      case Expired => b.(errors := b.errors + 1)
      case _ => b
  }

  ghost predicate Kept(s: State) {
    Told(s.out) == Books(s.requests, s.errors, s.byteCount)
  }

  lemma ToldMore(s: State, o: Output)
    ensures Told(s.out + [o]) == match o
      case Started(_, _) => Told(s.out).(requests := Told(s.out).requests + 1)
      case Sent(_, _, chunk) => Told(s.out).(bytes := Told(s.out).bytes + |chunk|)
      case Rejected(_, _) => Told(s.out).(errors := Told(s.out).errors + 1)
      case Expired => Told(s.out).(errors := Told(s.out).errors + 1)
      case _ => Told(s.out)
  {
    assert (s.out + [o])[..|s.out|] == s.out;
  }

  lemma SendKeeps(s: State)
    requires s.transfer.Some? && s.transfer.value.next >= 1 && Kept(s)
    ensures Kept(SendNext(s))
  {
    hide Told;
    ToldMore(s, SendNext(s).out[|s.out|]);
  }

  lemma StepKeepsBooks(c: Config, s: State, e: Event)
    requires (s.transfer.Some? ==> s.transfer.value.next >= 1) && Kept(s)
    ensures Kept(Step(c, s, e))
  {
    hide Told, SendNext, SplitRrq, BlocksOf, U16At;
    forall peer, code
      ensures Kept(Reject(s, peer, code))
    {
      ToldMore(s, Rejected(peer, code));
    }
    match e
    case Look(late) =>
      ToldMore(s, Expired);
      ToldMore(s, Overdue);
      if s.transfer.Some? {
        var t := s.transfer.value;
        SendKeeps(Show(s.(transfer := Some(t.(retries := t.retries + 1))), Overdue));
      }
    case Datagram(peer, data) =>
      RrqKeepsBooks(c, s, peer, SplitRrq(data));
      AckKeepsBooks(s, peer, data);
  }

  lemma RrqKeepsBooks(c: Config, s: State, peer: Peer, file: Option<seq<int>>)
    requires Kept(s)
    ensures Kept(ServeFile(c, s, peer, file))
  {
    hide Told, SendNext, BlocksOf;
    ToldMore(s, Rejected(peer, 4));
    ToldMore(s, Abandoned);
    if file.Some? {
      var free := if s.transfer.Some? then Show(s.(transfer := None), Abandoned) else s;
      ToldMore(free, Rejected(peer, 1));
      ToldMore(free, Started(peer, file.value));
      if file.value in c.payloads {
        var t := Transfer(peer, file.value, BlocksOf(c.payloads[file.value]), 1, 0, 0, 0, false);
        SendKeeps(Show(free.(requests := free.requests + 1, transfer := Some(t)), Started(peer, file.value)));
      }
    }
  }

  lemma AckKeepsBooks(s: State, peer: Peer, data: seq<byte>)
    requires (s.transfer.Some? ==> s.transfer.value.next >= 1) && Kept(s)
    ensures Kept(HandleAck(s, peer, data))
  {
    hide Told, SendNext, U16At;
    ToldMore(s, Rejected(peer, 4));
    if s.transfer.Some? {
      var t := s.transfer.value;
      SendKeeps(s);
      var accepted := Show(s, Accepted(peer, t.pendingAck));
      ToldMore(s, Accepted(peer, t.pendingAck));
      ToldMore(accepted, Complete(|t.blocks|, t.acked + 1));
      SendKeeps(accepted.(transfer := Some(t.(acked := t.acked + 1, retries := 0, next := t.next + 1))));
    }
  }

  /** The three counters of every run are what its outputs tell. */
  lemma {:induction false} CountersTell(c: Config, events: seq<Event>)
    ensures Kept(Run(c, events))
  {
    hide Step;
    if events != [] {
      CountersTell(c, events[..|events| - 1]);
      StepKeepsBooks(c, Run(c, events[..|events| - 1]), events[|events| - 1]);
    }
  }
}
