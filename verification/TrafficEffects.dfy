/** internal/server/event_handler.go: what the frames a client sends bring about, opcode by opcode. */
module TrafficEffects {
  import opened Bytes
  import opened Collections
  import opened Rfc6455
  import opened ClientDecoder
  import opened Traffic

  // ----- one frame --------------------------------------------------------------------------------------------------

  /** A Binary frame is submitted to the pool if there is one, a Ping is answered by a Pong with its payload, a Close by
      a Close with its code or 1000, and nothing else has an effect. */
  lemma FrameEffects(pool: bool, f: Frame)
    ensures EffectsOf(pool, [f]) ==
      if f.opcode == 0x2 && pool then [Submit(f.payload)]
      else if f.opcode == 0x9 then [Reply(Frame(0xA, f.payload))]
      else if f.opcode == 0x8 then [Reply(Frame(0x8, if |f.payload| >= 2 then f.payload[..2] else [0x03, 0xE8]))]
      else []
  {
    hide CloseReply;
    EffectsOfOne(pool, f);
    CloseEchoesCode(f.payload);
    CodeOctets();
    CloseReplyShape(f.payload);
  }

  lemma CloseReplyShape(payload: seq<byte>)
    ensures CloseReply(payload).opcode == 0x8 && |CloseReply(payload).payload| == 2
    ensures |payload| < 2 ==> CloseReply(payload).payload == ToBigEndian(1000, 2)
  {
  }

  lemma CodeOctets()
    ensures ToBigEndian(1000, 2) == [0x03, 0xE8]
  {
    BigEndianIsOnto([0x03, 0xE8]);
    assert [0x03, 0xE8][..1] == [0x03] && [0x03][..0] == [];
    assert FromBigEndian([0x03, 0xE8]) == 1000;
  }

  // ----- many frames ------------------------------------------------------------------------------------------------

  /** What was handed to the pool, in order. */
  function Submitted(log: seq<Effect>): seq<seq<byte>> {
    if log == [] then []
    else
      var front, last := Submitted(log[..|log| - 1]), log[|log| - 1];
      if last.Submit? then front + [last.payload] else front
  }

  function Payloads(fs: seq<Frame>): seq<seq<byte>> {
    seq(|fs|, i requires 0 <= i < |fs| => fs[i].payload)
  }

  function AnswerTo(f: Frame): seq<Frame> {
    if f.opcode == 0x9 then [Frame(0xA, f.payload)]
    else if f.opcode == 0x8 then [Frame(0x8, if |f.payload| >= 2 then f.payload[..2] else [0x03, 0xE8])]
    else []
  }

  function AnswersTo(fs: seq<Frame>): seq<Frame> {
    if fs == [] then [] else AnswersTo(fs[..|fs| - 1]) + AnswerTo(fs[|fs| - 1])
  }

  lemma LogSnoc(log: seq<Effect>, e: Effect)
    ensures Submitted(log + [e]) == Submitted(log) + if e.Submit? then [e.payload] else []
    ensures Replies(log + [e]) == Replies(log) + if e.Reply? then [e.frame] else []
  {
    assert (log + [e])[..|log + [e]| - 1] == log;
    RepliesAppend(log, [e]);
    assert [e][1..] == [];
  }

  lemma OneMoreFrame(pool: bool, log: seq<Effect>, f: Frame)
    ensures var after := log + EffectsOf(pool, [f]);
      && Submitted(after) == Submitted(log) + (if pool && f.opcode == 0x2 then [f.payload] else [])
      && Replies(after) == Replies(log) + AnswerTo(f)
  {
    hide EffectsOf, Submitted, Replies;
    FrameEffects(pool, f);
    var more := EffectsOf(pool, [f]);
    if more == [] {
      assert log + more == log;
    } else {
      LogSnoc(log, more[0]);
      assert more == [more[0]];
    }
  }

  lemma PayloadsSnoc(fs: seq<Frame>, f: Frame)
    ensures Payloads(fs + [f]) == Payloads(fs) + [f.payload]
  {
  }

  /** The payloads submitted are those of the Binary frames, in order, and the answers are those to the Pings and
      Closes, in order. */
  lemma {:induction false} EffectsByOpcode(pool: bool, fs: seq<Frame>)
    ensures Submitted(EffectsOf(pool, fs)) == if pool then Payloads(Filter(fs, (f: Frame) => f.opcode == 0x2)) else []
    ensures Replies(EffectsOf(pool, fs)) == AnswersTo(fs)
    decreases |fs|
  {
    if fs == [] {
    } else {
      hide EffectsOf, Submitted, Replies, AnswerTo, Payloads;
      var front, last := fs[..|fs| - 1], fs[|fs| - 1];
      assert fs == front + [last];
      EffectsByOpcode(pool, front);
      EffectsAppend(pool, front, [last]);
      OneMoreFrame(pool, EffectsOf(pool, front), last);
      PayloadsSnoc(Filter(front, (f: Frame) => f.opcode == 0x2), last);
    }
  }

  // ----- what clients send ------------------------------------------------------------------------------------------

  lemma {:induction false} UpToFirstClose(fs: seq<Frame>, k: nat)
    requires k <= |fs| && (forall i | 0 <= i < k :: fs[i].opcode != 0x8) && (k < |fs| ==> fs[k].opcode == 0x8)
    ensures UpToClose(fs) == fs[..if k < |fs| then k + 1 else k] && (HasClose(fs) <==> k < |fs|)
    decreases |fs|
  {
    if fs == [] {
    } else if k == 0 {
      assert fs[..1] == [fs[0]];
    } else {
      UpToFirstClose(fs[1..], k - 1);
      assert fs == [fs[0]] + fs[1..];
    }
  }

  /** However the octets of a list of client frames are cut into chunks of at most 67571: if the first Close is the
      k-th, the payloads submitted are those of the Binary frames before it, and the answers are those to the Pings
      before it and to itself; without one, those of all frames. */
  lemma ClientFramesAreHandled(pool: bool, ws: seq<Wire>, chunks: seq<seq<byte>>, k: nat)
    requires forall w | w in ws :: WellFormed(w) && ClientWire(w)
    requires Flatten(chunks) == EncodeAll(ws) && forall c | c in chunks :: |c| <= 67571
    requires k <= |ws| && (forall i | 0 <= i < k :: ws[i].opcode != 0x8) && (k < |ws| ==> ws[k].opcode == 0x8)
    ensures var end, handled := Run(pool, FRESH, chunks), FramesOf(ws)[..if k < |ws| then k + 1 else k];
      && Submitted(end.log) == (if pool then Payloads(Filter(handled, (f: Frame) => f.opcode == 0x2)) else [])
      && Replies(end.log) == AnswersTo(handled)
      && (end.open <==> k == |ws|)
      && (end.open ==> end.buffer == [])
  {
    hide Run, NoTrip, ScanAll, EffectsOf, UpToClose, HasClose, Encode, WellFormed, ClientWire, Replies, Submitted,
      AnswersTo, Payloads, Tracks, Settled, DecodeOne;
    RoundTrip(ws);
    FreshTracks(pool);
    SmallChunksNeverTrip(pool, FRESH, [], chunks);
    ChunkingIndependence(pool, chunks);
    UpToFirstClose(FramesOf(ws), k);
    EffectsByOpcode(pool, FramesOf(ws)[..if k < |ws| then k + 1 else k]);
  }

  /** The effects of one accepted frame in a chunk of its own. */
  lemma OneFrameIsHandled(pool: bool, w: Wire)
    requires ClientWire(w) && |Encode(w)| <= 67571
    ensures var log := Run(pool, FRESH, [Encode(w)]).log;
      && (w.opcode == 0x2 && pool ==> log == [Submit(w.payload)])
      && (w.opcode == 0x9 ==> log == [Reply(Frame(0xA, w.payload))])
      && (w.opcode == 0x1 || w.opcode == 0xA ==> log == [])
  {
    hide Run, NoTrip, ScanAll, EffectsOf, UpToClose, HasClose, Encode, DecodeOne, Tracks, Settled;
    assert w in [w] && EncodeAll([w]) == Encode(w) by {
      assert [w][1..] == [];
    }
    FlattenOne(Encode(w));
    var f := Frame(w.opcode, w.payload);
    assert FramesOf([w]) == [f];
    RoundTrip([w]);
    FreshTracks(pool);
    SmallChunksNeverTrip(pool, FRESH, [], [Encode(w)]);
    ChunkingIndependence(pool, [Encode(w)]);
    UpToFirstClose([f], if f.opcode == 0x8 then 0 else 1);
    FrameEffects(pool, f);
    assert [f][..1] == [f];
  }
}
