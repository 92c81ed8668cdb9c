/** internal/server/event_handler.go: reassembling frames from arbitrary TCP chunks after the handshake. */
module Traffic {
  import opened Bytes
  import opened Collections
  import opened Rfc6455
  import opened ClientDecoder
  import ServerFrames

  const BUFFER_LIMIT := 130 * 1024

  /** What the handler asks of the network and of the worker pool. */
  datatype Effect = Reply(frame: Frame) | Submit(payload: seq<byte>)

  datatype State = State(buffer: seq<byte>, open: bool, log: seq<Effect>)

  const FRESH := State([], true, [])

  function CloseReply(payload: seq<byte>): Frame {
    var code := if |payload| >= 2 then FromBigEndian(payload[..2]) else 1000;
    Frame(OP_CLOSE, ToBigEndian(code, 2))
  }

  /** `pool` tells whether the application and its worker pool are present. */
  function EffectsOfFrame(pool: bool, f: Frame): seq<Effect> {
    if f.opcode == OP_PING then [Reply(Frame(OP_PONG, f.payload))]
    else if f.opcode == OP_CLOSE then [Reply(CloseReply(f.payload))]
    else if f.opcode == OP_BINARY && pool then [Submit(f.payload)]
    else []
  }

  function EffectsOf(pool: bool, frames: seq<Frame>): seq<Effect> {
    if frames == [] then [] else EffectsOfFrame(pool, frames[0]) + EffectsOf(pool, frames[1..])
  }

  predicate HasClose(frames: seq<Frame>) {
    exists f | f in frames :: f.opcode == OP_CLOSE
  }

  /** The frames up to and including the first Close. */
  function UpToClose(frames: seq<Frame>): seq<Frame> {
    if frames == [] then []
    else if frames[0].opcode == OP_CLOSE then [frames[0]]
    else [frames[0]] + UpToClose(frames[1..])
  }

  /** One OnTraffic callback; a closed connection receives none. */
  function Traffic(pool: bool, st: State, chunk: seq<byte>): State {
    if !st.open then st
    else
      var buffer := st.buffer + chunk;
      if |buffer| > BUFFER_LIMIT then st.(buffer := buffer, open := false)
      else
        var s := ScanAll(buffer);
        if s.error.Some? then st.(buffer := buffer, open := false)
        else State(buffer[s.consumed..], !HasClose(s.frames), st.log + EffectsOf(pool, UpToClose(s.frames)))
  }

  function Run(pool: bool, st: State, chunks: seq<seq<byte>>): State
    decreases |chunks|
  {
    if chunks == [] then st else Run(pool, Traffic(pool, st, chunks[0]), chunks[1..])
  }

  /** No callback of the run meets the buffer limit. */
  predicate NoTrip(pool: bool, st: State, chunks: seq<seq<byte>>)
    decreases |chunks|
  {
    chunks == [] ||
    ((st.open ==> |st.buffer| + |chunks[0]| <= BUFFER_LIMIT)
     && NoTrip(pool, Traffic(pool, st, chunks[0]), chunks[1..]))
  }

  // ----- sequences of frames ----------------------------------------------------------------

  lemma {:induction false} EffectsAppend(pool: bool, a: seq<Frame>, b: seq<Frame>)
    ensures EffectsOf(pool, a + b) == EffectsOf(pool, a) + EffectsOf(pool, b)
  {
    hide EffectsOfFrame;
    if a == [] {
      assert a + b == b;
    } else {
      assert (a + b)[1..] == a[1..] + b;
      EffectsAppend(pool, a[1..], b);
      Associative(EffectsOfFrame(pool, a[0]), EffectsOf(pool, a[1..]), EffectsOf(pool, b));
    }
  }

  lemma {:induction false} UpToCloseAppend(a: seq<Frame>, b: seq<Frame>)
    ensures HasClose(a) ==> UpToClose(a + b) == UpToClose(a)
    ensures !HasClose(a) ==> UpToClose(a) == a && UpToClose(a + b) == a + UpToClose(b)
    ensures HasClose(a + b) <==> HasClose(a) || HasClose(b)
  {
    if a == [] {
      assert a + b == b;
    } else {
      UpToCloseAppend(a[1..], b);
      assert (a + b)[1..] == a[1..] + b;
      assert a == [a[0]] + a[1..];
      assert HasClose(a) <==> a[0].opcode == OP_CLOSE || HasClose(a[1..]);
    }
  }

  // ----- the invariant of a run -------------------------------------------------------------

  ghost predicate PrefixHandled(pool: bool, log: seq<Effect>, frames: seq<Frame>) {
    exists k | 0 <= k <= |frames| :: log == EffectsOf(pool, frames[..k])
  }

  lemma PrefixesGrow(pool: bool, log: seq<Effect>, a: seq<Frame>, b: seq<Frame>)
    requires PrefixHandled(pool, log, a) && a <= b
    ensures PrefixHandled(pool, log, b)
  {
    var k :| 0 <= k <= |a| && log == EffectsOf(pool, a[..k]);
    assert b[..k] == a[..k];
  }

  lemma AllHandled(pool: bool, frames: seq<Frame>, more: seq<Frame>)
    ensures PrefixHandled(pool, EffectsOf(pool, frames), frames + more)
  {
    assert (frames + more)[..|frames|] == frames;
  }

  /** How the state relates to one-shot decoding of everything received so far. */
  ghost predicate Tracks(pool: bool, st: State, stream: seq<byte>) {
    var s := ScanAll(stream);
    if st.open then
      s.error.None? && !HasClose(s.frames) && st.log == EffectsOf(pool, s.frames) && st.buffer == stream[s.consumed..]
    else
      PrefixHandled(pool, st.log, UpToClose(s.frames))
  }

  /** A closed connection that met neither the limit nor a bad frame has handled everything up to a Close. */
  ghost predicate Settled(pool: bool, st: State, stream: seq<byte>) {
    var s := ScanAll(stream);
    st.open || s.error.Some? || (HasClose(s.frames) && st.log == EffectsOf(pool, UpToClose(s.frames)))
  }

  /** More input never takes back a frame. */
  lemma FramesGrow(stream: seq<byte>, chunk: seq<byte>)
    ensures UpToClose(ScanAll(stream).frames) <= UpToClose(ScanAll(stream + chunk).frames)
    ensures HasClose(ScanAll(stream).frames) ==>
      && UpToClose(ScanAll(stream + chunk).frames) == UpToClose(ScanAll(stream).frames)
      && HasClose(ScanAll(stream + chunk).frames)
    ensures ScanAll(stream).error.Some? ==> ScanAll(stream + chunk).error.Some?
  {
    hide ScanAll, UpToClose, HasClose;
    ScanResumes(stream, chunk);
    var s := ScanAll(stream);
    if s.error.None? {
      UpToCloseAppend(s.frames, ScanAll(stream[s.consumed..] + chunk).frames);
    }
  }

  lemma TrafficTracks(pool: bool, st: State, stream: seq<byte>, chunk: seq<byte>)
    requires Tracks(pool, st, stream)
    ensures Tracks(pool, Traffic(pool, st, chunk), stream + chunk)
  {
    hide ScanAll, UpToClose, HasClose, EffectsOf, PrefixHandled;
    var s := ScanAll(stream);
    if st.open {
      ScanResumes(stream, chunk);
      var t := ScanAll(stream[s.consumed..] + chunk);
      UpToCloseAppend(s.frames, t.frames);
      UpToCloseAppend(t.frames, []);
      assert t.frames + [] == t.frames;
      EffectsAppend(pool, s.frames, UpToClose(t.frames));
      AllHandled(pool, s.frames, UpToClose(t.frames));
      AllHandled(pool, s.frames + UpToClose(t.frames), []);
      assert s.frames + UpToClose(t.frames) + [] == s.frames + UpToClose(t.frames);
      assert (stream + chunk)[s.consumed + t.consumed..] == (stream[s.consumed..] + chunk)[t.consumed..];
    } else {
      FramesGrow(stream, chunk);
      PrefixesGrow(pool, st.log, UpToClose(s.frames), UpToClose(ScanAll(stream + chunk).frames));
    }
  }

  lemma TrafficSettles(pool: bool, st: State, stream: seq<byte>, chunk: seq<byte>)
    requires Tracks(pool, st, stream) && Settled(pool, st, stream)
    requires st.open ==> |st.buffer| + |chunk| <= BUFFER_LIMIT
    ensures Settled(pool, Traffic(pool, st, chunk), stream + chunk)
  {
    hide ScanAll, UpToClose, HasClose, EffectsOf;
    if st.open {
      var s := ScanAll(stream);
      ScanResumes(stream, chunk);
      var t := ScanAll(stream[s.consumed..] + chunk);
      UpToCloseAppend(s.frames, t.frames);
      EffectsAppend(pool, s.frames, UpToClose(t.frames));
    } else {
      FramesGrow(stream, chunk);
    }
  }

  lemma {:induction false} RunTracks(pool: bool, st: State, stream: seq<byte>, chunks: seq<seq<byte>>)
    requires Tracks(pool, st, stream)
    ensures Tracks(pool, Run(pool, st, chunks), stream + Flatten(chunks))
    ensures Settled(pool, st, stream) && NoTrip(pool, st, chunks) ==>
      Settled(pool, Run(pool, st, chunks), stream + Flatten(chunks))
    decreases |chunks|
  {
    hide Tracks, Settled, Traffic;
    if chunks == [] {
      assert stream + Flatten(chunks) == stream;
    } else {
      TrafficTracks(pool, st, stream, chunks[0]);
      if Settled(pool, st, stream) && NoTrip(pool, st, chunks) {
        TrafficSettles(pool, st, stream, chunks[0]);
      }
      RunTracks(pool, Traffic(pool, st, chunks[0]), stream + chunks[0], chunks[1..]);
      assert stream + Flatten(chunks) == stream + chunks[0] + Flatten(chunks[1..]);
    }
  }

  lemma FreshTracks(pool: bool)
    ensures Tracks(pool, FRESH, []) && Settled(pool, FRESH, [])
  {
    NothingToDecode();
  }

  lemma FreshRunTracks(pool: bool, chunks: seq<seq<byte>>)
    ensures Tracks(pool, Run(pool, FRESH, chunks), Flatten(chunks))
    ensures NoTrip(pool, FRESH, chunks) ==> Settled(pool, Run(pool, FRESH, chunks), Flatten(chunks))
  {
    hide Tracks, Settled, Run, NoTrip, Flatten;
    FreshTracks(pool);
    RunTracks(pool, FRESH, [], chunks);
    assert [] + Flatten(chunks) == Flatten(chunks);
  }

  // ----- the theorems -----------------------------------------------------------------------

  /** An error-free stream is handled as one-shot decoding would, however it is cut into chunks:
      the frames up to the first Close, and until then the residual is the undecoded suffix. */
  lemma ChunkingIndependence(pool: bool, chunks: seq<seq<byte>>)
    requires NoTrip(pool, FRESH, chunks) && ScanAll(Flatten(chunks)).error.None?
    ensures var end, s := Run(pool, FRESH, chunks), ScanAll(Flatten(chunks));
      && end.log == EffectsOf(pool, UpToClose(s.frames))
      && (end.open <==> !HasClose(s.frames))
      && (end.open ==> end.buffer == Flatten(chunks)[s.consumed..])
  {
    hide ScanAll, Run, NoTrip, HasClose, UpToClose, EffectsOf, Flatten, PrefixHandled;
    FreshRunTracks(pool, chunks);
    UpToCloseAppend(ScanAll(Flatten(chunks)).frames, []);
  }

  // ----- streams with a bad frame, and runs that meet the limit ----------------------------------

  lemma {:induction false} RunSplits(pool: bool, st: State, a: seq<seq<byte>>, b: seq<seq<byte>>)
    ensures Run(pool, st, a + b) == Run(pool, Run(pool, st, a), b)
    ensures NoTrip(pool, st, a + b) <==> NoTrip(pool, st, a) && NoTrip(pool, Run(pool, st, a), b)
    decreases |a|
  {
    hide Traffic;
    if a == [] {
      assert a + b == b;
    } else {
      assert (a + b)[1..] == a[1..] + b;
      RunSplits(pool, Traffic(pool, st, a[0]), a[1..], b);
    }
  }

  lemma {:induction false} ClosedStaysClosed(pool: bool, st: State, chunks: seq<seq<byte>>)
    requires !st.open
    ensures Run(pool, st, chunks) == st
    decreases |chunks|
  {
    if chunks == [] {
    } else {
      ClosedStaysClosed(pool, st, chunks[1..]);
    }
  }

  predicate Clean(pool: bool, chunks: seq<seq<byte>>) {
    NoTrip(pool, FRESH, chunks) && ScanAll(Flatten(chunks)).error.None?
  }

  /** How many chunks arrive before the one that meets the limit or completes a bad frame. */
  function Kept(pool: bool, chunks: seq<seq<byte>>): (n: nat)
    ensures n <= |chunks|
    decreases |chunks|
  {
    if chunks == [] || Clean(pool, chunks) then |chunks| else Kept(pool, chunks[..|chunks| - 1])
  }

  /** These chunks are clean, and with the next one they are not. */
  lemma {:induction false} KeptAreClean(pool: bool, chunks: seq<seq<byte>>)
    ensures Clean(pool, chunks[..Kept(pool, chunks)])
    ensures Kept(pool, chunks) < |chunks| ==> !Clean(pool, chunks[..Kept(pool, chunks) + 1])
    decreases |chunks|
  {
    hide NoTrip, ScanAll, Flatten;
    if chunks == [] {
      NothingIsClean(pool);
    } else if Clean(pool, chunks) {
      assert chunks[..|chunks|] == chunks;
    } else {
      hide Clean;
      assert chunks[..|chunks|] == chunks;
      var front, n := chunks[..|chunks| - 1], Kept(pool, chunks);
      KeptAreClean(pool, front);
      assert front[..n] == chunks[..n];
      if n < |front| {
        assert front[..n + 1] == chunks[..n + 1];
      }
    }
  }

  lemma NothingIsClean(pool: bool)
    ensures Clean(pool, [])
  {
    NothingToDecode();
  }

  /** The frames a run handles: those of the chunks kept, up to the first Close. */
  function Handled(pool: bool, chunks: seq<seq<byte>>): seq<Frame> {
    UpToClose(ScanAll(Flatten(chunks[..Kept(pool, chunks)])).frames)
  }

  /** The chunk that meets the limit, or completes a bad frame, closes the connection and handles nothing. */
  lemma ChunkNotKept(pool: bool, before: seq<seq<byte>>, chunk: seq<byte>)
    requires Clean(pool, before) && !Clean(pool, before + [chunk])
    ensures Traffic(pool, Run(pool, FRESH, before), chunk).log == Run(pool, FRESH, before).log
    ensures !Traffic(pool, Run(pool, FRESH, before), chunk).open
  {
    hide ScanAll, Run, HasClose, UpToClose, EffectsOf, Flatten;
    ChunkingIndependence(pool, before);
    var st := Run(pool, FRESH, before);
    var stream := Flatten(before);
    if st.open {
      RunSplits(pool, FRESH, before, [chunk]);
      FlattenOne(chunk);
      FlattenAppend(before, [chunk]);
      ScanResumes(stream, chunk);
      assert [chunk][1..] == [];
    }
  }

  lemma FlattenOne(chunk: seq<byte>)
    ensures Flatten([chunk]) == chunk
  {
    assert [chunk][1..] == [];
  }

  /** Every run of every stream, whatever the chunks: exactly the frames of the chunks before the one that
      meets the limit or completes a bad frame are handled, up to the first Close. */
  lemma RunHandles(pool: bool, chunks: seq<seq<byte>>)
    ensures Run(pool, FRESH, chunks).log == EffectsOf(pool, Handled(pool, chunks))
    ensures Handled(pool, chunks) <= UpToClose(ScanAll(Flatten(chunks)).frames)
    ensures Kept(pool, chunks) < |chunks| ==> !Run(pool, FRESH, chunks).open
    ensures ScanAll(Flatten(chunks)).error.Some? ==> Kept(pool, chunks) < |chunks|
  {
    hide ScanAll, Run, NoTrip, HasClose, UpToClose, EffectsOf, Flatten, Traffic, Kept;
    var n := Kept(pool, chunks);
    KeptAreClean(pool, chunks);
    ChunkingIndependence(pool, chunks[..n]);
    if n == |chunks| {
      assert chunks[..n] == chunks;
    } else {
      var before, chunk, rest := chunks[..n], chunks[n], chunks[n + 1..];
      assert chunks == before + chunks[n..];
      FlattenAppend(before, chunks[n..]);
      FramesGrow(Flatten(before), Flatten(chunks[n..]));
      assert chunks[..n + 1] == before + [chunk];
      assert chunks == before + [chunk] + rest;
      ChunkNotKept(pool, before, chunk);
      RunSplits(pool, FRESH, before + [chunk], rest);
      RunSplits(pool, FRESH, before, [chunk]);
      RunOne(pool, Run(pool, FRESH, before), chunk);
      ClosedStaysClosed(pool, Run(pool, FRESH, before + [chunk]), rest);
    }
  }

  lemma RunOne(pool: bool, st: State, chunk: seq<byte>)
    ensures Run(pool, st, [chunk]) == Traffic(pool, st, chunk)
  {
    assert [chunk][1..] == [];
  }

  /** A stream with a bad frame ends closed, and what is handled are the frames of the chunks before the one
      that completes it, up to the first Close. */
  lemma BadStreamsClose(pool: bool, chunks: seq<seq<byte>>, k: nat)
    requires k < |chunks| && NoTrip(pool, FRESH, chunks[..k])
    requires ScanAll(Flatten(chunks[..k])).error.None? && ScanAll(Flatten(chunks[..k + 1])).error.Some?
    ensures !Run(pool, FRESH, chunks).open
    ensures Run(pool, FRESH, chunks).log == EffectsOf(pool, UpToClose(ScanAll(Flatten(chunks[..k])).frames))
  {
    hide ScanAll, Run, HasClose, UpToClose, EffectsOf, Flatten, Traffic;
    var n := Kept(pool, chunks);
    KeptAreClean(pool, chunks);
    if n < k {
      assert chunks[..k] == chunks[..n + 1] + chunks[n + 1..k];
      CleanPrefix(pool, chunks[..n + 1], chunks[n + 1..k]);
    } else if n > k {
      assert chunks[..n] == chunks[..k + 1] + chunks[k + 1..n];
      CleanPrefix(pool, chunks[..k + 1], chunks[k + 1..n]);
    }
    RunHandles(pool, chunks);
  }

  lemma CleanPrefix(pool: bool, a: seq<seq<byte>>, b: seq<seq<byte>>)
    requires Clean(pool, a + b)
    ensures Clean(pool, a)
  {
    hide ScanAll, NoTrip, Flatten;
    RunSplits(pool, FRESH, a, b);
    FlattenAppend(a, b);
    FramesGrow(Flatten(a), Flatten(b));
  }

  /** Two splits of one stream, good or bad, handle one a prefix of the other's frames; they have the same
      effects if and only if the frames in between have none. */
  lemma SplitsAgreeIff(pool: bool, a: seq<seq<byte>>, b: seq<seq<byte>>)
    requires Flatten(a) == Flatten(b)
    ensures var (x, y) := (Handled(pool, a), Handled(pool, b));
      && (x <= y || y <= x)
      && (x <= y ==>
           (Run(pool, FRESH, a).log == Run(pool, FRESH, b).log <==> EffectsOf(pool, y[|x|..]) == []))
  {
    hide ScanAll, Run, NoTrip, HasClose, UpToClose, EffectsOf, Flatten, Kept;
    var (m, n) := (Kept(pool, a), Kept(pool, b));
    assert a == a[..m] + a[m..] && b == b[..n] + b[n..];
    FlattenAppend(a[..m], a[m..]);
    FlattenAppend(b[..n], b[n..]);
    PrefixesOfOne(Flatten(a[..m]), Flatten(a[m..]), Flatten(b[..n]), Flatten(b[n..]));
    var (x, y) := (Handled(pool, a), Handled(pool, b));
    if x <= y {
      RunHandles(pool, a);
      RunHandles(pool, b);
      assert y == x + y[|x|..];
      EffectsAppend(pool, x, y[|x|..]);
    }
  }

  lemma PrefixesOfOne(a: seq<byte>, a': seq<byte>, b: seq<byte>, b': seq<byte>)
    requires a + a' == b + b'
    ensures var (x, y) := (UpToClose(ScanAll(a).frames), UpToClose(ScanAll(b).frames)); x <= y || y <= x
  {
    hide ScanAll, UpToClose;
    assert a == (a + a')[..|a|] && b == (b + b')[..|b|];
    if |a| <= |b| {
      assert b == a + b[|a|..];
      FramesGrow(a, b[|a|..]);
    } else {
      assert a == b + a[|b|..];
      FramesGrow(b, a[|b|..]);
    }
  }

  /** A Ping and then a frame with a reserved bit: in two chunks the Ping is answered, in one it is not. */
  lemma BadStreamsDependOnChunks(pool: bool)
    ensures exists ping, bad :: Run(pool, FRESH, [ping, bad]).log != Run(pool, FRESH, [ping + bad]).log
  {
    hide DecodeOne, ScanAll, Encode, Run, Traffic;
    var ping, bad := Encode(Wire(OP_PING, Some([0, 0, 0, 0]), Len7, [])), [0xF0, 0x80];
    PingThenBad(bad);
    RunOne(pool, FRESH, ping + bad);
    RunSplits(pool, FRESH, [ping], [bad]);
    assert [ping] + [bad] == [ping, bad];
    RunOne(pool, FRESH, ping);
    RunOne(pool, Traffic(pool, FRESH, ping), bad);
    PingEffects(pool, ping, bad);
  }

  lemma PingThenBad(bad: seq<byte>)
    requires bad == [0xF0, 0x80]
    ensures var ping := Encode(Wire(OP_PING, Some([0, 0, 0, 0]), Len7, []));
      && |ping| == 6
      && ScanAll(ping) == Scan([Frame(OP_PING, [])], 6, None)
      && ScanAll(ping + bad) == Scan([Frame(OP_PING, [])], 6, Some(RsvNotZero))
      && ScanAll(bad) == Scan([], 0, Some(RsvNotZero))
  {
    hide ScanAll, Encode, DecodeOne;
    var w := Wire(OP_PING, Some([0, 0, 0, 0]), Len7, []);
    var ping := Encode(w);
    EncodingLayout(w, []);
    DecoderIsComplete(w, []);
    assert ping + [] == ping;
    DecoderIsComplete(w, bad);
    ReservedBit(bad);
    NothingToDecode();
    ScanUnfolds([]);
    ScanUnfolds(ping);
    ScanUnfolds(bad);
    ScanUnfolds(ping + bad);
    assert ping[6..] == [] && (ping + bad)[6..] == bad;
  }

  lemma ReservedBit(bad: seq<byte>)
    requires bad == [0xF0, 0x80]
    ensures DecodeOne(bad) == Bad(RsvNotZero)
  {
  }

  lemma PingEffects(pool: bool, ping: seq<byte>, bad: seq<byte>)
    requires |ping| == 6 && |bad| == 2
    requires ScanAll(ping) == Scan([Frame(OP_PING, [])], 6, None)
    requires ScanAll(ping + bad).error.Some? && ScanAll(bad).error.Some?
    ensures Traffic(pool, FRESH, ping + bad).log == []
    ensures Traffic(pool, Traffic(pool, FRESH, ping), bad).log == [Reply(Frame(OP_PONG, []))]
  {
    hide ScanAll;
    assert [] + ping == ping && [] + (ping + bad) == ping + bad;
    var f := Frame(OP_PING, []);
    assert [f][1..] == [] && UpToClose([f]) == [f];
    assert EffectsOf(pool, [f]) == [Reply(Frame(OP_PONG, []))];
    var st := Traffic(pool, FRESH, ping);
    assert ping[6..] == [] && st.buffer == [] && [] + bad == bad;
  }

  /** Chunks of at most 67571 octets never meet the limit: the residual never exceeds 65549. */
  lemma {:induction false} SmallChunksNeverTrip(pool: bool, st: State, stream: seq<byte>, chunks: seq<seq<byte>>)
    requires Tracks(pool, st, stream)
    requires forall c | c in chunks :: |c| <= 67571
    ensures NoTrip(pool, st, chunks)
    ensures Run(pool, st, chunks).open ==> |Run(pool, st, chunks).buffer| <= 65549
    decreases |chunks|
  {
    hide Traffic, EffectsOf, HasClose, UpToClose;
    if chunks == [] {
    } else {
      TrafficTracks(pool, st, stream, chunks[0]);
      SmallChunksNeverTrip(pool, Traffic(pool, st, chunks[0]), stream + chunks[0], chunks[1..]);
    }
  }

  /** The bound on the chunks cannot be raised: after the longest residual, one octet more trips. */
  lemma ChunkBoundIsTight(pool: bool)
    ensures exists residual: seq<byte>, chunk: seq<byte> ::
      |chunk| == 67572 && Run(pool, FRESH, [residual]).open && !NoTrip(pool, FRESH, [residual, chunk])
  {
    hide DecodeOne;
    IncompleteBoundIsTight();
    var residual: seq<byte> :| |residual| == 65549 && DecodeOne(residual) == Incomplete;
    var chunk: seq<byte> := seq(67572, _ => 0);
    ScanUnfolds(residual);
    assert [] + residual == residual && residual[0..] == residual;
    var st := Traffic(pool, FRESH, residual);
    assert st.open && st.buffer == residual;
    assert [residual, chunk][1..] == [chunk];
    assert !NoTrip(pool, st, [chunk]);
    assert [residual][1..] == [];
    assert Run(pool, FRESH, [residual]) == Run(pool, st, []);
  }

  /** Two ways of cutting the same error-free stream end alike. */
  lemma SplitsAgree(pool: bool, a: seq<seq<byte>>, b: seq<seq<byte>>)
    requires Flatten(a) == Flatten(b) && ScanAll(Flatten(a)).error.None?
    requires forall c | c in a + b :: |c| <= 67571
    ensures var x, y := Run(pool, FRESH, a), Run(pool, FRESH, b);
      x.log == y.log && x.open == y.open && (x.open ==> x.buffer == y.buffer)
  {
    hide ScanAll, Run, NoTrip, EffectsOf, HasClose, UpToClose;
    FreshTracks(pool);
    assert forall c | c in a :: c in a + b;
    assert forall c | c in b :: c in a + b;
    SmallChunksNeverTrip(pool, FRESH, [], a);
    SmallChunksNeverTrip(pool, FRESH, [], b);
    ChunkingIndependence(pool, a);
    ChunkingIndependence(pool, b);
  }

  /** The Close reply carries the code the peer sent, or 1000. */
  lemma CloseEchoesCode(payload: seq<byte>)
    ensures |payload| >= 2 ==> CloseReply(payload) == Frame(OP_CLOSE, payload[..2])
    ensures |payload| < 2 ==> FromBigEndian(CloseReply(payload).payload) == 1000
  {
    if |payload| >= 2 {
      BigEndianIsOnto(payload[..2]);
    } else {
      assert Pow256(2) == 0x1_0000;
      BigEndianRoundTrip(1000, 2);
    }
  }

  // ----- what the peer reads ------------------------------------------------------------------

  function RepliesOf(e: Effect): seq<Frame> {
    if e.Reply? then [e.frame] else []
  }

  function Replies(log: seq<Effect>): seq<Frame> {
    if log == [] then [] else RepliesOf(log[0]) + Replies(log[1..])
  }

  lemma {:induction false} RepliesAppend(a: seq<Effect>, b: seq<Effect>)
    ensures Replies(a + b) == Replies(a) + Replies(b)
  {
    hide RepliesOf;
    if a == [] {
      assert a + b == b;
    } else {
      assert (a + b)[1..] == a[1..] + b;
      RepliesAppend(a[1..], b);
      Associative(RepliesOf(a[0]), Replies(a[1..]), Replies(b));
    }
  }

  lemma {:induction false} DecodedPayloadsAreSmall(data: seq<byte>)
    ensures forall f | f in ScanAll(data).frames :: |f.payload| <= MAX_PAYLOAD
    decreases |data|
  {
    if DecodeOne(data).Done? {
      DecodedPayloadsAreSmall(data[DecodeOne(data).size..]);
    }
  }

  // ----- the imperative code ------------------------------------------------------------------

  class Connection {
    var readBuffer: seq<byte>
    var open: bool
    var log: seq<Effect>
    /** The octets handed to AsyncWrite, in order. */
    var wire: seq<byte>

    ghost function View(): State
      reads this
    {
      State(readBuffer, open, log)
    }

    /** The peer's reader recovers exactly the replies made. */
    ghost predicate Valid()
      reads this
    {
      && (forall f | f in Replies(log) :: ServerFrames.Printable(f))
      && wire == ServerFrames.PrintAll(Replies(log))
    }

    constructor ()
      ensures Valid() && View() == FRESH
    {
      readBuffer, open, log, wire := [], true, [], [];
    }

    method Write(f: Frame)
      requires Valid() && ServerFrames.Printable(f)
      modifies `log, `wire
      ensures Valid() && log == old(log) + [Reply(f)]
    {
      var octets := ServerFrames.BuildServerFrame(f.opcode, f.payload);
      RepliesAppend(log, [Reply(f)]);
      assert Replies([Reply(f)]) == [f];
      ServerFrames.PrintAllAppend(Replies(log), [f]);
      assert ServerFrames.PrintAll([f]) == ServerFrames.Print(f);
      wire := wire + octets;
      log := log + [Reply(f)];
    }

    method SubmitTask(payload: seq<byte>)
      requires Valid()
      modifies `log
      ensures Valid() && log == old(log) + [Submit(payload)]
    {
      RepliesAppend(log, [Submit(payload)]);
      assert Replies([Submit(payload)]) == [] && Replies(log) + [] == Replies(log);
      log := log + [Submit(payload)];
    }

    /** handleWebSocketTraffic; `next` is what c.Next(-1) returned. */
    method HandleTraffic(pool: bool, next: Option<seq<byte>>)
      requires Valid() && open
      modifies this
      ensures Valid()
      ensures next.Some? ==> View() == Traffic(pool, old(View()), next.value)
      ensures next.None? ==> View() == old(View()).(open := false)
    {
      hide ScanAll, ServerFrames.PrintAll, ServerFrames.Printable, CloseReply;
      if next.None? {
        open := false;
        return;
      }
      readBuffer := readBuffer + next.value;
      if |readBuffer| > BUFFER_LIMIT {
        open := false;
        return;
      }
      var frames, consumed, error := DecodeWebSocketFrames(readBuffer);
      if error.Some? {
        open := false;
        return;
      }
      ghost var buffer := readBuffer;
      if consumed > 0 {
        readBuffer := readBuffer[consumed..];
      }
      assert readBuffer == buffer[consumed..];
      DecodedPayloadsAreSmall(buffer);
      Dispatch(pool, frames);
    }

    /** The loop over the frames of one batch. */
    method Dispatch(pool: bool, frames: seq<Frame>)
      requires Valid() && open
      requires forall f | f in frames :: |f.payload| <= MAX_PAYLOAD
      modifies `open, `log, `wire
      ensures Valid() && open == !HasClose(frames)
      ensures log == old(log) + EffectsOf(pool, UpToClose(frames))
    {
      hide ServerFrames.PrintAll, CloseReply, EffectsOf, HasClose, UpToClose, Replies;
      NoFrames(pool);
      assert frames[..0] == [];
      for i := 0 to |frames|
        invariant Valid() && open && !HasClose(frames[..i])
        invariant log == old(log) + EffectsOf(pool, frames[..i])
      {
        var frame := frames[i];
        assert frames == frames[..i] + frames[i..];
        UpToCloseAppend(frames[..i], frames[i..]);
        assert frames[..i + 1] == frames[..i] + [frame];
        UpToCloseAppend(frames[..i], [frame]);
        EffectsAppend(pool, frames[..i], [frame]);
        EffectsOfOne(pool, frame);
        if frame.opcode == OP_PING {
          Write(Frame(OP_PONG, frame.payload));
        } else if frame.opcode == OP_CLOSE {
          CloseReplyIsPrintable(frame.payload);
          Write(CloseReply(frame.payload));
          open := false;
          assert UpToClose(frames) == frames[..i] + [frame] by {
            CloseEnds(frames[i..]);
          }
          assert HasClose(frames) by {
            CloseEnds(frames[i..]);
          }
          return;
        } else if frame.opcode == OP_BINARY && pool {
          SubmitTask(frame.payload);
        }
      }
      assert frames[..|frames|] == frames;
      UpToCloseAppend(frames, []);
    }
  }

  lemma EffectsOfOne(pool: bool, f: Frame)
    ensures EffectsOf(pool, [f]) == EffectsOfFrame(pool, f)
    ensures HasClose([f]) <==> f.opcode == OP_CLOSE
  {
    assert [f][1..] == [];
  }

  lemma CloseEnds(frames: seq<Frame>)
    requires frames != [] && frames[0].opcode == OP_CLOSE
    ensures HasClose(frames) && UpToClose(frames) == [frames[0]]
  {
  }

  lemma NoFrames(pool: bool)
    ensures EffectsOf(pool, []) == [] && !HasClose([])
  {
  }

  lemma CloseReplyIsPrintable(payload: seq<byte>)
    ensures ServerFrames.Printable(CloseReply(payload))
  {
  }

  /** The peer's reader of `wire` sees the replies in the order they were made. */
  lemma PeerReadsReplies(c: Connection)
    requires c.Valid()
    ensures ServerFrames.ReadAll(c.wire) == Some(Replies(c.log))
  {
    ServerFrames.StreamIsReadBack(Replies(c.log));
  }
}
