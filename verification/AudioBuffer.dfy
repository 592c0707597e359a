/** Per-participant audio buffers, and the adapter that fills them from RTP datagrams. */
module AudioBuffer {
  import opened RtpParser
  import opened RedisKeys
  import opened Types

  datatype Format = Opus | Pcm16le

  datatype AudioChunk = AudioChunk(participantId: string, sessionId: string, data: seq<Byte>, format: Format,
      sampleRate: Positive)

  datatype BufferEntry = BufferEntry(chunks: seq<seq<Byte>>, durationSec: real)

  /** What goes to the scoring queue: a flushed buffer, or a transcript made elsewhere. */
  datatype Window =
    | Flushed(participantId: string, sessionId: string, audio: seq<Byte>, durationSec: real, lastSec: real)
    | Transcribed(participantId: string, sessionId: string, transcript: string)

  datatype Pool = Pool(buffers: map<string, BufferEntry>, queue: seq<Window>)

  const WINDOW_SECONDS := 30.0
  const EMPTY_POOL := Pool(map[], [])
  const EMPTY_ENTRY := BufferEntry([], 0.0)

  function BufferKey(participantId: string, sessionId: string): string {
    sessionId + ":" + participantId
  }

  function EstimateDuration(chunk: AudioChunk): (sec: real)
    ensures 0.0 <= sec
  {
    if chunk.format == Pcm16le then |chunk.data| as real / (chunk.sampleRate * 2) as real
    else |chunk.data| as real / 3000.0
  }

  /** A second of linear audio is two bytes per sample, a second of Opus 3000 bytes. */
  lemma SecondsOf(c: AudioChunk)
    ensures EstimateDuration(c) * (if c.format == Pcm16le then 2.0 * c.sampleRate as real else 3000.0)
         == |c.data| as real
  {
  }

  function Concat(chunks: seq<seq<Byte>>): seq<Byte> {
    if chunks == [] then [] else Concat(chunks[..|chunks| - 1]) + chunks[|chunks| - 1]
  }

  function EntryOf(p: Pool, key: string): BufferEntry {
    if key in p.buffers then p.buffers[key] else EMPTY_ENTRY
  }

  function PushChunk(p: Pool, c: AudioChunk): Pool {
    var key := BufferKey(c.participantId, c.sessionId);
    var entry := EntryOf(p, key);
    var grown := BufferEntry(entry.chunks + [c.data], entry.durationSec + EstimateDuration(c));
    if grown.durationSec >= WINDOW_SECONDS then
      Pool(p.buffers - {key},
           p.queue
           + [Flushed(c.participantId, c.sessionId, Concat(grown.chunks), grown.durationSec, EstimateDuration(c))])
    else p.(buffers := p.buffers[key := grown])
  }

  function AddTranscript(p: Pool, participantId: string, sessionId: string, transcript: string): Pool {
    p.(queue := p.queue + [Transcribed(participantId, sessionId, transcript)])
  }

  function ClearBuffer(p: Pool, participantId: string, sessionId: string): Pool {
    p.(buffers := p.buffers - {BufferKey(participantId, sessionId)})
  }

  class AudioBufferPool {
    var buffers: map<string, BufferEntry>
    var queue: seq<Window>

    function View(): Pool
      reads this
    {
      Pool(buffers, queue)
    }

    constructor ()
      ensures View() == EMPTY_POOL
    {
      buffers, queue := map[], [];
    }

    method Push(chunk: AudioChunk)
      modifies this
      ensures View() == PushChunk(old(View()), chunk)
    {
      var key := BufferKey(chunk.participantId, chunk.sessionId);
      var entry := if key in buffers then buffers[key] else EMPTY_ENTRY;
      entry := entry.(chunks := entry.chunks + [chunk.data]);
      entry := entry.(durationSec := entry.durationSec + EstimateDuration(chunk));
      buffers := buffers[key := entry];
      if entry.durationSec >= WINDOW_SECONDS {
        Flush(chunk.participantId, chunk.sessionId, entry, chunk);
        buffers := buffers - {key};
        assert buffers == old(buffers) - {key};
      }
    }

    method Flush(participantId: string, sessionId: string, entry: BufferEntry, lastChunk: AudioChunk)
      modifies this`queue
      ensures queue == old(queue)
        + [Flushed(participantId, sessionId, Concat(entry.chunks), entry.durationSec, EstimateDuration(lastChunk))]
    {
      var combined := Concat(entry.chunks);
      queue := queue + [Flushed(participantId, sessionId, combined, entry.durationSec, EstimateDuration(lastChunk))];
    }

    /** A window that already has its transcript skips the buffer. */
    method PushTranscript(participantId: string, sessionId: string, transcript: string)
      modifies this`queue
      ensures View() == AddTranscript(old(View()), participantId, sessionId, transcript)
    {
      queue := queue + [Transcribed(participantId, sessionId, transcript)];
    }

    method Clear(participantId: string, sessionId: string)
      modifies this`buffers
      ensures View() == ClearBuffer(old(View()), participantId, sessionId)
    {
      buffers := buffers - {BufferKey(participantId, sessionId)};
    }
  }

  // ---------- bounds and isolation ----------

  datatype Operation =
    | PushOf(chunk: AudioChunk)
    | TranscriptOf(participantId: string, sessionId: string, transcript: string)
    | ClearOf(participantId: string, sessionId: string)

  function Apply(p: Pool, op: Operation): Pool {
    match op
    case PushOf(chunk) => PushChunk(p, chunk)
    case TranscriptOf(participantId, sessionId, transcript) => AddTranscript(p, participantId, sessionId, transcript)
    case ClearOf(participantId, sessionId) => ClearBuffer(p, participantId, sessionId)
  }

  function ApplyAll(p: Pool, ops: seq<Operation>): Pool {
    if ops == [] then p else Apply(ApplyAll(p, ops[..|ops| - 1]), ops[|ops| - 1])
  }

  /** Live buffers are below the window length; flushed windows reach it, but not without their last chunk. */
  predicate Bounded(p: Pool) {
    && (forall key <- p.buffers :: 0.0 <= p.buffers[key].durationSec < WINDOW_SECONDS)
    && (forall w <- p.queue :: w.Flushed? ==> WINDOW_SECONDS <= w.durationSec < WINDOW_SECONDS + w.lastSec)
  }

  lemma {:induction false} RunsAreBounded(p: Pool, ops: seq<Operation>)
    requires Bounded(p)
    ensures Bounded(ApplyAll(p, ops))
  {
    if ops != [] {
      RunsAreBounded(p, ops[..|ops| - 1]);
    }
  }

  /** The operation changes the buffer under this key; a transcript never changes any. */
  predicate Touches(op: Operation, key: string) {
    match op
    case PushOf(chunk) => key == BufferKey(chunk.participantId, chunk.sessionId)
    case TranscriptOf(_, _, _) => false
    case ClearOf(participantId, sessionId) => key == BufferKey(participantId, sessionId)
  }

  /** Within a session different participants have different buffers, whatever their ids. */
  lemma KeysDifferInSession(p: string, q: string, sessionId: string)
    ensures BufferKey(p, sessionId) == BufferKey(q, sessionId) <==> p == q
  {
    assert BufferKey(p, sessionId)[|sessionId| + 1..] == p;
    assert BufferKey(q, sessionId)[|sessionId| + 1..] == q;
  }

  /** Exactly when two participants, of any sessions, share a key; without colons in session ids none do. */
  lemma KeysMeetIff(p: string, s: string, q: string, t: string)
    ensures BufferKey(p, s) == BufferKey(q, t) <==>
      (p == q && s == t) || exists m :: Shifted(s, p, t, q, m) || Shifted(t, q, s, p, m)
    ensures ':' !in s && ':' !in t ==> (BufferKey(p, s) == BufferKey(q, t) <==> p == q && s == t)
  {
    JoinedSameIff(s, p, t, q);
    if ':' !in s && ':' !in t {
      FirstColonSplit(s, p, t, q);
    }
  }

  /** Operations for other participants, and transcripts of anyone, leave a participant's buffer alone. */
  lemma {:induction false} OthersLeaveBufferAlone(p: Pool, ops: seq<Operation>, key: string)
    requires forall op <- ops :: !Touches(op, key)
    ensures EntryOf(ApplyAll(p, ops), key) == EntryOf(p, key)
  {
    if ops != [] {
      var front := ops[..|ops| - 1];
      assert forall op <- front :: op in ops;
      OthersLeaveBufferAlone(p, front, key);
      assert ops[|ops| - 1] in ops;
    }
  }

  // ---------- the adapter ----------

  /** The tap's answer: which participant sends under which SSRC. */
  datatype Consumer = Consumer(ssrc: UInt32, participantId: string)

  datatype AdapterEvent =
    | Connected(consumers: seq<Consumer>)
    | Message(datagram: seq<Byte>)
    | AddConsumer(participantId: string, ssrc: UInt32)
    | Disconnect

  datatype AdapterState = AdapterState(ssrcMap: map<UInt32, string>, pool: Pool)

  /** The lookup table with the tap's consumers entered one after the other. */
  function Registered(ssrcMap: map<UInt32, string>, consumers: seq<Consumer>): map<UInt32, string> {
    if consumers == [] then ssrcMap
    else
      var last := consumers[|consumers| - 1];
      Registered(ssrcMap, consumers[..|consumers| - 1])[last.ssrc := last.participantId]
  }

  /** An SSRC is looked up as the last consumer that the tap lists for it. */
  lemma {:induction false} LastConsumerCounts(ssrcMap: map<UInt32, string>, consumers: seq<Consumer>, i: nat)
    requires i < |consumers| && forall j :: i < j < |consumers| ==> consumers[j].ssrc != consumers[i].ssrc
    ensures var after := Registered(ssrcMap, consumers);
      consumers[i].ssrc in after && after[consumers[i].ssrc] == consumers[i].participantId
  {
    var n := |consumers| - 1;
    if i < n {
      LastConsumerCounts(ssrcMap, consumers[..n], i);
    }
  }

  /** An SSRC that the tap does not list is looked up as before. */
  lemma {:induction false} UnlistedStays(ssrcMap: map<UInt32, string>, consumers: seq<Consumer>, ssrc: UInt32)
    requires forall i :: 0 <= i < |consumers| ==> consumers[i].ssrc != ssrc
    ensures var after := Registered(ssrcMap, consumers);
      (ssrc in after <==> ssrc in ssrcMap) && (ssrc in after ==> after[ssrc] == ssrcMap[ssrc])
  {
    if consumers != [] {
      UnlistedStays(ssrcMap, consumers[..|consumers| - 1], ssrc);
    }
  }

  /** Who a datagram's audio belongs to, and that audio. An empty participant id counts as unknown. */
  function Route(ssrcMap: map<UInt32, string>, datagram: seq<Byte>): Option<(string, seq<Byte>)> {
    match Parse(datagram)
    case None => None
    case Some(rtp) =>
      if rtp.ssrc in ssrcMap && ssrcMap[rtp.ssrc] != "" then Some((ssrcMap[rtp.ssrc], rtp.payload)) else None
  }

  /** An encoded packet is handed on exactly if its SSRC is known: its payload, for the participant of that SSRC. */
  lemma EncodedIsRouted(ssrcMap: map<UInt32, string>, h: Rtp)
    requires h.Valid()
    ensures Route(ssrcMap, Serialize(h)) ==
      if h.ssrc in ssrcMap && ssrcMap[h.ssrc] != "" then Some((ssrcMap[h.ssrc], h.payload)) else None
  {
    ParseAfterSerialize(h);
  }

  /** Anything else is dropped. */
  lemma OthersAreDropped(ssrcMap: map<UInt32, string>, datagram: seq<Byte>)
    requires forall h: Rtp :: h.Valid() ==> Serialize(h) != datagram
    ensures Route(ssrcMap, datagram) == None
  {
    ParseInvertsSerialize(datagram);
  }

  function OpusChunk(participantId: string, sessionId: string, payload: seq<Byte>): AudioChunk {
    AudioChunk(participantId, sessionId, payload, Opus, 48000)
  }

  function HandleEvent(a: AdapterState, sessionId: string, e: AdapterEvent): AdapterState {
    match e
    case Connected(consumers) => a.(ssrcMap := Registered(a.ssrcMap, consumers))
    case Message(datagram) => (
      match Route(a.ssrcMap, datagram)
      case None => a
      case Some((participantId, payload)) =>
        a.(pool := PushChunk(a.pool, OpusChunk(participantId, sessionId, payload))))
    case AddConsumer(participantId, ssrc) => a.(ssrcMap := a.ssrcMap[ssrc := participantId])
    case Disconnect => a.(ssrcMap := map[])
  }

  class MediasoupAdapter {
    const sessionId: string
    const bufferPool: AudioBufferPool
    var ssrcMap: map<UInt32, string>

    constructor (sessionId: string)
      ensures this.sessionId == sessionId && fresh(bufferPool)
      ensures View() == AdapterState(map[], EMPTY_POOL)
    {
      this.sessionId := sessionId;
      this.bufferPool := new AudioBufferPool();
      this.ssrcMap := map[];
    }

    function View(): AdapterState
      reads this, bufferPool
    {
      AdapterState(ssrcMap, bufferPool.View())
    }

    /** Enters the tap's answer into the lookup table; what was registered before stays, unless it is replaced. */
    method Connect(consumers: seq<Consumer>)
      modifies this
      ensures View() == HandleEvent(old(View()), sessionId, Connected(consumers))
    {
      for i := 0 to |consumers|
        invariant ssrcMap == Registered(old(ssrcMap), consumers[..i]) && bufferPool.View() == old(bufferPool.View())
      {
        assert consumers[..i + 1][..i] == consumers[..i];
        ssrcMap := ssrcMap[consumers[i].ssrc := consumers[i].participantId];
      }
      assert consumers[..|consumers|] == consumers;
    }

    method OnMessage(datagram: seq<Byte>)
      modifies bufferPool
      ensures View() == HandleEvent(old(View()), sessionId, Message(datagram))
      ensures forall h: Rtp :: h.Valid() && Serialize(h) == datagram && h.ssrc in ssrcMap && ssrcMap[h.ssrc] != "" ==>
        bufferPool.View() ==
          PushChunk(old(bufferPool.View()), AudioChunk(ssrcMap[h.ssrc], sessionId, h.payload, Opus, 48000))
    {
      var rtp := ParseRtp(datagram);
      if rtp.None? {
        return;
      }
      if rtp.value.ssrc !in ssrcMap || ssrcMap[rtp.value.ssrc] == "" {
        return;
      }
      bufferPool.Push(OpusChunk(ssrcMap[rtp.value.ssrc], sessionId, rtp.value.payload));
    }

    method RegisterConsumer(participantId: string, ssrc: UInt32)
      modifies this
      ensures View() == HandleEvent(old(View()), sessionId, AddConsumer(participantId, ssrc))
    {
      ssrcMap := ssrcMap[ssrc := participantId];
    }

    method Close()
      modifies this
      ensures View() == HandleEvent(old(View()), sessionId, Disconnect)
    {
      ssrcMap := map[];
    }
  }

  // ---------- conservation ----------

  function HandleAll(a: AdapterState, sessionId: string, es: seq<AdapterEvent>): AdapterState {
    if es == [] then a else HandleEvent(HandleAll(a, sessionId, es[..|es| - 1]), sessionId, es[|es| - 1])
  }

  /** The lookup table after these events. */
  function MapAfter(ssrcMap: map<UInt32, string>, es: seq<AdapterEvent>): map<UInt32, string> {
    if es == [] then ssrcMap
    else
      var before := MapAfter(ssrcMap, es[..|es| - 1]);
      match es[|es| - 1]
      case Connected(consumers) => Registered(before, consumers)
      case Message(_) => before
      case AddConsumer(participantId, ssrc) => before[ssrc := participantId]
      case Disconnect => map[]
  }

  /** The datagram is the encoding of this packet, and the SSRC of the packet is the participant's. */
  ghost predicate IsFor(h: Rtp, ssrcMap: map<UInt32, string>, datagram: seq<Byte>, participantId: string) {
    && h.Valid() && Serialize(h) == datagram
    && participantId != "" && h.ssrc in ssrcMap && ssrcMap[h.ssrc] == participantId
  }

  /** The audio that a datagram carries for a participant: the payload of the packet in it, if that is theirs. */
  ghost function AudioFor(ssrcMap: map<UInt32, string>, datagram: seq<Byte>, participantId: string): seq<Byte> {
    if exists h: Rtp :: IsFor(h, ssrcMap, datagram, participantId)
    then var h: Rtp :| IsFor(h, ssrcMap, datagram, participantId); h.payload
    else []
  }

  lemma ForIsRouted(h: Rtp, ssrcMap: map<UInt32, string>, datagram: seq<Byte>, participantId: string)
    requires IsFor(h, ssrcMap, datagram, participantId)
    ensures Route(ssrcMap, datagram) == Some((participantId, h.payload))
  {
    EncodedIsRouted(ssrcMap, h);
  }

  lemma RoutedIsFor(ssrcMap: map<UInt32, string>, datagram: seq<Byte>)
    requires Route(ssrcMap, datagram).Some?
    ensures exists h: Rtp :: IsFor(h, ssrcMap, datagram, Route(ssrcMap, datagram).value.0)
  {
    ParseInvertsSerialize(datagram);
    var h: Rtp :| h.Valid() && Serialize(h) == datagram;
    EncodedIsRouted(ssrcMap, h);
    assert IsFor(h, ssrcMap, datagram, Route(ssrcMap, datagram).value.0);
  }

  lemma RoutedIsAudio(ssrcMap: map<UInt32, string>, datagram: seq<Byte>, participantId: string)
    ensures var route := Route(ssrcMap, datagram);
      AudioFor(ssrcMap, datagram, participantId) ==
        if route.Some? && route.value.0 == participantId then route.value.1 else []
  {
    forall h: Rtp | IsFor(h, ssrcMap, datagram, participantId)
      ensures Route(ssrcMap, datagram) == Some((participantId, h.payload))
    {
      ForIsRouted(h, ssrcMap, datagram, participantId);
    }
    if Route(ssrcMap, datagram).Some? {
      RoutedIsFor(ssrcMap, datagram);
    }
  }

  /** The lookup table keeps its entries while datagrams arrive, takes late consumers, and is forgotten at the end. */
  lemma TableAfter(ssrcMap: map<UInt32, string>, es: seq<AdapterEvent>, e: AdapterEvent, ssrc: UInt32)
    requires !e.Connected?
    ensures var before, after := MapAfter(ssrcMap, es), MapAfter(ssrcMap, es + [e]);
      && (ssrc in after <==> !e.Disconnect? && (ssrc in before || (e.AddConsumer? && e.ssrc == ssrc)))
      && (ssrc in after ==>
            after[ssrc] == if e.AddConsumer? && e.ssrc == ssrc then e.participantId else before[ssrc])
  {
    assert (es + [e])[..|es|] == es;
  }

  /** Connecting enters the consumers of the tap, the last one with an SSRC winning, over what was there before. */
  lemma TableAfterConnect(ssrcMap: map<UInt32, string>, es: seq<AdapterEvent>, consumers: seq<Consumer>, ssrc: UInt32)
    ensures var before, after := MapAfter(ssrcMap, es), MapAfter(ssrcMap, es + [Connected(consumers)]);
      if exists i :: 0 <= i < |consumers| && IsLastWith(consumers, ssrc, i) then
        ssrc in after && forall i :: 0 <= i < |consumers| && IsLastWith(consumers, ssrc, i) ==>
          after[ssrc] == consumers[i].participantId
      else (ssrc in after <==> ssrc in before) && (ssrc in after ==> after[ssrc] == before[ssrc])
  {
    var before := MapAfter(ssrcMap, es);
    assert (es + [Connected(consumers)])[..|es|] == es;
    forall i | 0 <= i < |consumers| && IsLastWith(consumers, ssrc, i)
      ensures ssrc in Registered(before, consumers) && Registered(before, consumers)[ssrc] == consumers[i].participantId
    {
      LastConsumerCounts(before, consumers, i);
    }
    if !exists i :: 0 <= i < |consumers| && IsLastWith(consumers, ssrc, i) {
      NoLastNone(consumers, ssrc, |consumers|);
      UnlistedStays(before, consumers, ssrc);
    }
  }

  predicate IsLastWith(consumers: seq<Consumer>, ssrc: UInt32, i: nat)
    requires i < |consumers|
  {
    consumers[i].ssrc == ssrc && forall j :: i < j < |consumers| ==> consumers[j].ssrc != ssrc
  }

  lemma {:induction false} NoLastNone(consumers: seq<Consumer>, ssrc: UInt32, n: nat)
    requires n <= |consumers| && !exists i :: 0 <= i < |consumers| && IsLastWith(consumers, ssrc, i)
    ensures forall i :: |consumers| - n <= i < |consumers| ==> consumers[i].ssrc != ssrc
  {
    if n > 0 {
      NoLastNone(consumers, ssrc, n - 1);
      assert !IsLastWith(consumers, ssrc, |consumers| - n);
    }
  }

  /** All audio that arrived for a participant, in order: whose an SSRC is, is settled on arrival. */
  ghost function Arrived(ssrcMap: map<UInt32, string>, es: seq<AdapterEvent>, participantId: string): seq<Byte> {
    if es == [] then []
    else
      var front, e := es[..|es| - 1], es[|es| - 1];
      Arrived(ssrcMap, front, participantId) +
      if e.Message? then AudioFor(MapAfter(ssrcMap, front), e.datagram, participantId) else []
  }

  /** The audio of a participant's flushed windows, in order. */
  function FlushedAudio(queue: seq<Window>, participantId: string): seq<Byte> {
    if queue == [] then []
    else
      var w := queue[|queue| - 1];
      FlushedAudio(queue[..|queue| - 1], participantId) +
      if w.Flushed? && w.participantId == participantId then w.audio else []
  }

  function LiveAudio(p: Pool, participantId: string, sessionId: string): seq<Byte> {
    Concat(EntryOf(p, BufferKey(participantId, sessionId)).chunks)
  }

  /** What a participant's buffer lasts once the chunk is in it. */
  function SecondsWith(p: Pool, c: AudioChunk): real {
    EntryOf(p, BufferKey(c.participantId, c.sessionId)).durationSec + EstimateDuration(c)
  }

  /** A push that fills the window hands over exactly the live audio and the new chunk, and leaves nothing behind. */
  lemma PushHandsOver(p: Pool, c: AudioChunk)
    requires SecondsWith(p, c) >= WINDOW_SECONDS
    ensures var p', live := PushChunk(p, c), LiveAudio(p, c.participantId, c.sessionId);
      && p'.queue == p.queue
           + [Flushed(c.participantId, c.sessionId, live + c.data, SecondsWith(p, c), EstimateDuration(c))]
      && LiveAudio(p', c.participantId, c.sessionId) == []
  {
    ConcatGrows(EntryOf(p, BufferKey(c.participantId, c.sessionId)).chunks, c.data);
  }

  /** Any other push adds the chunk to the live audio. */
  lemma PushAdds(p: Pool, c: AudioChunk)
    requires SecondsWith(p, c) < WINDOW_SECONDS
    ensures var p', live := PushChunk(p, c), LiveAudio(p, c.participantId, c.sessionId);
      p'.queue == p.queue && LiveAudio(p', c.participantId, c.sessionId) == live + c.data
  {
    ConcatGrows(EntryOf(p, BufferKey(c.participantId, c.sessionId)).chunks, c.data);
  }

  lemma ConcatGrows(chunks: seq<seq<Byte>>, data: seq<Byte>)
    ensures Concat(chunks + [data]) == Concat(chunks) + data
  {
    assert (chunks + [data])[..|chunks|] == chunks;
  }

  lemma PushSparesOthers(p: Pool, c: AudioChunk, participantId: string)
    requires participantId != c.participantId
    ensures LiveAudio(PushChunk(p, c), participantId, c.sessionId) == LiveAudio(p, participantId, c.sessionId)
  {
    KeysDifferInSession(c.participantId, participantId, c.sessionId);
  }

  /** Clearing forgets the live audio of one participant, and touches neither the others' nor any window. */
  lemma ClearForgets(p: Pool, participantId: string, sessionId: string, other: string)
    ensures var p' := ClearBuffer(p, participantId, sessionId);
      && p'.queue == p.queue
      && LiveAudio(p', other, sessionId) == if other == participantId then [] else LiveAudio(p, other, sessionId)
  {
    KeysDifferInSession(participantId, other, sessionId);
  }

  lemma FlushedGrows(queue: seq<Window>, w: Window, participantId: string)
    ensures FlushedAudio(queue + [w], participantId) ==
      FlushedAudio(queue, participantId) + if w.Flushed? && w.participantId == participantId then w.audio else []
  {
    assert (queue + [w])[..|queue|] == queue;
  }

  lemma PushConserves(p: Pool, c: AudioChunk, participantId: string)
    ensures var p' := PushChunk(p, c);
      FlushedAudio(p'.queue, participantId) + LiveAudio(p', participantId, c.sessionId)
      == FlushedAudio(p.queue, participantId) + LiveAudio(p, participantId, c.sessionId)
         + (if c.participantId == participantId then c.data else [])
  {
    var p', q := PushChunk(p, c), p.queue;
    if SecondsWith(p, c) >= WINDOW_SECONDS {
      PushHandsOver(p, c);
      FlushedGrows(q, p'.queue[|q|], participantId);
    } else {
      PushAdds(p, c);
    }
    if participantId != c.participantId {
      PushSparesOthers(p, c, participantId);
    }
  }

  /**
   * No byte is lost, added, reordered or given to someone else: for every sequence of datagrams,
   * late consumers and disconnects, a participant's flushed windows followed by their live buffer
   * are exactly the audio that arrived for them.
   */
  lemma {:induction false} AudioIsConserved(ssrcMap: map<UInt32, string>, sessionId: string, es: seq<AdapterEvent>,
      participantId: string)
    ensures var a := HandleAll(AdapterState(ssrcMap, EMPTY_POOL), sessionId, es);
      && a.ssrcMap == MapAfter(ssrcMap, es)
      && FlushedAudio(a.pool.queue, participantId) + LiveAudio(a.pool, participantId, sessionId)
         == Arrived(ssrcMap, es, participantId)
  {
    if es != [] {
      var front, e := es[..|es| - 1], es[|es| - 1];
      AudioIsConserved(ssrcMap, sessionId, front, participantId);
      var a := HandleAll(AdapterState(ssrcMap, EMPTY_POOL), sessionId, front);
      if e.Message? {
        RoutedIsAudio(a.ssrcMap, e.datagram, participantId);
        if Route(a.ssrcMap, e.datagram).Some? {
          var (q, payload) := Route(a.ssrcMap, e.datagram).value;
          PushConserves(a.pool, OpusChunk(q, sessionId, payload), participantId);
        }
      }
    }
  }

  /** Opus only: seconds are bytes at 24 kbit/s. */
  function OpusSeconds(bytes: nat): real {
    bytes as real / 3000.0
  }

  predicate CountsBytes(p: Pool) {
    && (forall key <- p.buffers :: p.buffers[key].durationSec == OpusSeconds(|Concat(p.buffers[key].chunks)|))
    && (forall w <- p.queue :: w.Flushed? ==> w.durationSec == OpusSeconds(|w.audio|))
  }

  lemma GrownCountsBytes(entry: BufferEntry, c: AudioChunk)
    requires entry.durationSec == OpusSeconds(|Concat(entry.chunks)|) && c.format == Opus
    ensures entry.durationSec + EstimateDuration(c) == OpusSeconds(|Concat(entry.chunks + [c.data])|)
  {
    ConcatGrows(entry.chunks, c.data);
  }

  lemma PushCountsBytes(p: Pool, c: AudioChunk)
    requires CountsBytes(p) && c.format == Opus
    ensures CountsBytes(PushChunk(p, c))
  {
    var entry := EntryOf(p, BufferKey(c.participantId, c.sessionId));
    GrownCountsBytes(entry, c);
  }

  lemma {:induction false} AdapterCountsBytes(ssrcMap: map<UInt32, string>, sessionId: string, es: seq<AdapterEvent>)
    ensures var p := HandleAll(AdapterState(ssrcMap, EMPTY_POOL), sessionId, es).pool;
      CountsBytes(p) && Bounded(p) && forall w <- p.queue :: w.Flushed?
  {
    if es != [] {
      var front, e := es[..|es| - 1], es[|es| - 1];
      AdapterCountsBytes(ssrcMap, sessionId, front);
      var a := HandleAll(AdapterState(ssrcMap, EMPTY_POOL), sessionId, front);
      if e.Message? && Route(a.ssrcMap, e.datagram).Some? {
        var (q, payload) := Route(a.ssrcMap, e.datagram).value;
        var c := OpusChunk(q, sessionId, payload);
        PushCountsBytes(a.pool, c);
        RunsAreBounded(a.pool, [PushOf(c)]);
        assert ApplyAll(a.pool, [PushOf(c)]) == PushChunk(a.pool, c);
      }
    }
  }

  /**
   * The adapter always holds less than 90,000 bytes of a participant, and every window that
   * it flushes has at least that many.
   */
  lemma AdapterBounds(ssrcMap: map<UInt32, string>, sessionId: string, es: seq<AdapterEvent>, participantId: string)
    ensures var p := HandleAll(AdapterState(ssrcMap, EMPTY_POOL), sessionId, es).pool;
      && |LiveAudio(p, participantId, sessionId)| < 90000
      && (forall w <- p.queue :: w.Flushed? && |w.audio| >= 90000)
  {
    AdapterCountsBytes(ssrcMap, sessionId, es);
  }
}
