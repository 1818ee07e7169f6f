/** The buffered response body: a task drains a producer into a bounded channel from which a reader
    serves polls. First the protocol as a step system over every interleaving, with what holds of
    all its runs; then the two sides as they are written, which take only steps of that system. */
module BufferedBody {
  import opened Wrappers
  import opened Arithmetic

  const CHUNK := 16384

  /** A chunk of bytes, or the producer's error. */
  type Msg = Result<seq<byte>, int>

  // ---- The step system ----

  /** The drainer awaits the producer, or awaits room for a message, or has dropped its sender. */
  datatype Drainer = Reading | Sending(m: Msg) | Done

  /** How the producer has ended so far. */
  datatype Outcome = Running | Finished | Broke(e: int)

  /** What a poll with room for some bytes was told. End of file is Ready without bytes. */
  datatype Answer = Pending | Ready(room: nat, bytes: seq<byte>) | Failed(e: int)

  /** The script is what the producer has yet to yield; past its end it yields end of file. The
      last four fields but `alive` record history. */
  datatype State = State(script: seq<Msg>, drainer: Drainer, channel: seq<Msg>, partial: Option<seq<byte>>, fused: bool,
    alive: bool, produced: seq<byte>, outcome: Outcome, answers: seq<Answer>)

  datatype Event = Read | Send | Poll(room: nat) | Drop

  /** Messages the channel holds, at least four whatever the cap in bytes. */
  function ChannelCap(capBytes: nat): (cap: nat)
    ensures cap >= 4 && (cap > 4 ==> 16384 * cap <= capBytes) && capBytes < 16384 * (cap + 1)
  {
    if capBytes / CHUNK > 4 then capBytes / CHUNK else 4
  }

  function Init(script: seq<Msg>): State {
    State(script, Reading, [], None, false, true, [], Running, [])
  }

  predicate Enabled(cap: nat, s: State, ev: Event) {
    match ev
    case Read => s.drainer.Reading?
    case Send => s.drainer.Sending? && (!s.alive || |s.channel| < cap)
    case Poll(_) => s.alive
    case Drop => s.alive
  }

  function Next(s: State, ev: Event): State
    requires (ev.Read? ==> s.drainer.Reading?) && (ev.Send? ==> s.drainer.Sending?)
  {
    match ev
    case Read => AfterRead(s)
    case Send => AfterSend(s, s.drainer.m)
    case Poll(room) => AfterPoll(s, room)
    case Drop => s.(alive := false)
  }

  function AfterRead(s: State): State {
    if s.script == [] then s.(drainer := Done, outcome := Finished)
    else
      var m := s.script[0];
      var s' := s.(script := s.script[1..], drainer := Sending(m));
      match m
      case Ok(bytes) => s'.(produced := s.produced + bytes)
      case Err(e) => s'.(outcome := Broke(e))
  }

  /** A send fails once the reader is gone; an error is the last message. */
  function AfterSend(s: State, m: Msg): State {
    if !s.alive then s.(drainer := Done)
    else s.(channel := s.channel + [m], drainer := if m.Ok? then Reading else Done)
  }

  function AfterPoll(s: State, room: nat): State {
    if s.fused then Told(s, Ready(room, []))
    else if s.partial.Some? then Serve(s, room, s.partial.value)
    else if s.channel != [] then
      var s' := s.(channel := s.channel[1..]);
      match s.channel[0]
      case Ok(chunk) => Serve(s', room, chunk)
      case Err(e) => Told(s'.(fused := true), Failed(e))
    else if s.drainer.Done? then Told(s.(fused := true), Ready(room, []))
    else Told(s, Pending)
  }

  function Told(s: State, a: Answer): State {
    s.(answers := s.answers + [a])
  }

  /** As much of the chunk as there is room for; the rest is kept. */
  function Serve(s: State, room: nat, chunk: seq<byte>): State {
    var n := Min(|chunk|, room);
    Told(s.(partial := if n < |chunk| then Some(chunk[n..]) else None), Ready(room, chunk[..n]))
  }

  /** The state after some events, unless one of them is not enabled when its turn comes. */
  function Exec(cap: nat, s: State, evs: seq<Event>): Option<State>
    decreases |evs|
  {
    if evs == [] then Some(s)
    else if Enabled(cap, s, evs[0]) then Exec(cap, Next(s, evs[0]), evs[1..])
    else None
  }

  lemma {:induction false} ExecAppend(cap: nat, s: State, a: seq<Event>, b: seq<Event>)
    ensures Exec(cap, s, a + b) == (match Exec(cap, s, a) case None => None case Some(t) => Exec(cap, t, b))
    decreases |a|
  {
    if a == [] {
      assert a + b == b;
    } else {
      assert (a + b)[1..] == a[1..] + b;
      if Enabled(cap, s, a[0]) {
        ExecAppend(cap, Next(s, a[0]), a[1..], b);
      }
    }
  }

  // ---- Bytes ----

  /** The bytes of a list of messages. */
  function Data(msgs: seq<Msg>): seq<byte> {
    if msgs == [] then [] else (if msgs[0].Ok? then msgs[0].value else []) + Data(msgs[1..])
  }

  function Delivered(answers: seq<Answer>): seq<byte> {
    if answers == [] then []
    else
      var last := answers[|answers| - 1];
      Delivered(answers[..|answers| - 1]) + if last.Ready? then last.bytes else []
  }

  /** What a script yields before its first error. */
  function Yield(script: seq<Msg>): seq<byte> {
    if script == [] || script[0].Err? then [] else script[0].value + Yield(script[1..])
  }

  /** How a script ends. */
  function EndOf(script: seq<Msg>): Outcome {
    if script == [] then Finished
    else match script[0] case Ok(_) => EndOf(script[1..]) case Err(e) => Broke(e)
  }

  function Held(s: State): seq<byte> {
    if s.partial.Some? then s.partial.value else []
  }

  function InFlight(s: State): seq<byte> {
    if s.drainer.Sending? && s.drainer.m.Ok? then s.drainer.m.value else []
  }

  predicate Fits(m: Msg) {
    m.Ok? ==> 0 < |m.value| <= CHUNK
  }

  predicate AllFit(msgs: seq<Msg>) {
    forall i :: 0 <= i < |msgs| ==> Fits(msgs[i])
  }

  lemma {:induction false} DataFront(m: Msg, msgs: seq<Msg>)
    ensures Data([m] + msgs) == (if m.Ok? then m.value else []) + Data(msgs)
  {
    assert ([m] + msgs)[1..] == msgs;
  }

  lemma {:induction false} DataAppend(a: seq<Msg>, m: Msg)
    ensures Data(a + [m]) == Data(a) + if m.Ok? then m.value else []
  {
    if a == [] {
      assert [m][1..] == [];
    } else {
      DataAppend(a[1..], m);
      DataFront(a[0], a[1..]);
      DataFront(a[0], a[1..] + [m]);
      hide Data;
      assert [a[0]] + a[1..] == a && [a[0]] + (a[1..] + [m]) == a + [m];
    }
  }

  lemma {:induction false} DeliveredAppend(answers: seq<Answer>, a: Answer)
    ensures Delivered(answers + [a]) == Delivered(answers) + if a.Ready? then a.bytes else []
  {
    assert (answers + [a])[..|answers|] == answers;
  }

  // ---- What every run keeps ----

  /** Sizes: chunks, the channel, the part of a chunk left over. */
  predicate Sized(cap: nat, s: State) {
    && AllFit(s.script) && AllFit(s.channel) && |s.channel| <= cap
    && (s.drainer.Sending? ==> Fits(s.drainer.m))
    && (s.partial.Some? ==> 0 < |s.partial.value| <= CHUNK)
  }

  /** Every byte read from the producer is delivered, left over, queued or in flight, in order. */
  predicate Conserved(s: State) {
    s.alive ==> s.produced == Delivered(s.answers) + Held(s) + Data(s.channel) + InFlight(s)
  }

  /** Produced so far, and how it ended, against the whole script. */
  predicate Faithful(script: seq<Msg>, s: State) {
    match s.outcome
    case Running => Yield(script) == s.produced + Yield(s.script) && EndOf(script) == EndOf(s.script)
    case _ => Yield(script) == s.produced && EndOf(script) == s.outcome
  }

  /** An error message is the last one, and comes where the outcome says. */
  predicate ErrorLast(s: State) {
    && (forall i :: 0 <= i < |s.channel| && s.channel[i].Err? ==>
          i == |s.channel| - 1 && s.drainer.Done? && s.outcome == Broke(s.channel[i].error))
    && (s.drainer.Reading? ==> s.outcome == Running)
    && (s.drainer.Sending? ==> s.outcome == if s.drainer.m.Ok? then Running else Broke(s.drainer.m.error))
    && (s.alive && s.drainer.Done? ==> s.outcome != Running)
    && (s.alive && s.drainer.Done? && s.outcome.Broke? && !s.fused ==>
          s.channel != [] && s.channel[|s.channel| - 1] == Err(s.outcome.e))
    && (s.fused ==> s.partial == None && s.channel == [] && s.drainer.Done? && s.outcome != Running)
  }

  /** A poll before the end: pending, or as many bytes as fit and at least one if any fits. */
  predicate Before(a: Answer) {
    match a
    case Pending => true
    case Ready(room, bytes) => |bytes| <= room && (room > 0 ==> bytes != [])
    case Failed(_) => false
  }

  predicate EofAnswer(a: Answer) {
    a.Ready? && a.bytes == []
  }

  predicate EndAnswer(a: Answer, outcome: Outcome) {
    match outcome
    case Running => false
    case Finished => EofAnswer(a)
    case Broke(e) => a == Failed(e)
  }

  /** The end was told at answer k: all bytes before it, end of file after it. */
  predicate EndsAt(answers: seq<Answer>, k: nat, all: seq<byte>, outcome: Outcome) {
    && k < |answers|
    && (forall i :: 0 <= i < k ==> Before(answers[i]))
    && Delivered(answers[..k]) == all
    && EndAnswer(answers[k], outcome)
    && (forall i :: k < i < |answers| ==> EofAnswer(answers[i]))
  }

  ghost predicate Transcript(s: State) {
    if s.fused then exists k: nat :: EndsAt(s.answers, k, s.produced, s.outcome)
    else forall i :: 0 <= i < |s.answers| ==> Before(s.answers[i])
  }

  ghost predicate Inv(cap: nat, script: seq<Msg>, s: State) {
    Sized(cap, s) && Conserved(s) && Faithful(script, s) && ErrorLast(s) && Transcript(s)
  }

  lemma {:induction false} InitInv(cap: nat, script: seq<Msg>)
    requires AllFit(script)
    ensures Inv(cap, script, Init(script))
  {
  }

  lemma {:induction false} ReadKeeps(cap: nat, script: seq<Msg>, s: State)
    requires Inv(cap, script, s) && s.drainer.Reading?
    ensures Inv(cap, script, AfterRead(s))
  {
    var s' := AfterRead(s);
    assert Transcript(s') by {
      assert !s.fused;
    }
    if s.script != [] && s.script[0].Ok? {
      var bytes := s.script[0].value;
      assert s.produced + bytes + Yield(s.script[1..]) == s.produced + (bytes + Yield(s.script[1..]));
    }
  }

  lemma {:induction false} SendKeeps(cap: nat, script: seq<Msg>, s: State)
    requires Inv(cap, script, s) && s.drainer.Sending? && (!s.alive || |s.channel| < cap)
    ensures Inv(cap, script, AfterSend(s, s.drainer.m))
  {
    var s' := AfterSend(s, s.drainer.m);
    assert !s.fused;
    assert Transcript(s');
    if s.alive {
      DataAppend(s.channel, s.drainer.m);
      assert s'.produced == Delivered(s'.answers) + Held(s') + Data(s'.channel) + InFlight(s');
    }
  }

  lemma {:induction false} DropKeeps(cap: nat, script: seq<Msg>, s: State)
    requires Inv(cap, script, s)
    ensures Inv(cap, script, s.(alive := false))
  {
    var s' := s.(alive := false);
    assert Transcript(s') by {
      if s.fused {
        var k: nat :| EndsAt(s.answers, k, s.produced, s.outcome);
        assert EndsAt(s'.answers, k, s'.produced, s'.outcome);
      }
    }
  }

  lemma {:induction false} ServeKeeps(cap: nat, script: seq<Msg>, s: State, room: nat, chunk: seq<byte>, rest: seq<byte>)
    requires Sized(cap, s) && Faithful(script, s) && ErrorLast(s.(partial := None)) && Transcript(s) && !s.fused
    requires 0 < |chunk| <= CHUNK
    requires s.alive && rest == Data(s.channel) + InFlight(s) && s.produced == Delivered(s.answers) + chunk + rest
    ensures Inv(cap, script, Serve(s, room, chunk))
  {
    ServeConserves(s, room, chunk, rest);
    ServeSized(cap, s, room, chunk);
    hide Sized, Conserved, Transcript, Before, Yield, EndOf, Delivered, Data;
    var n := Min(|chunk|, room);
    var kept := s.(partial := if n < |chunk| then Some(chunk[n..]) else None);
    BeforeServe(room, chunk);
    BeforeKeeps(s, kept, Ready(room, chunk[..n]));
  }

  lemma {:induction false} ServeSized(cap: nat, s: State, room: nat, chunk: seq<byte>)
    requires Sized(cap, s) && 0 < |chunk| <= CHUNK
    ensures Sized(cap, Serve(s, room, chunk))
  {
    hide AllFit;
  }

  lemma {:induction false} BeforeServe(room: nat, chunk: seq<byte>)
    requires chunk != []
    ensures Before(Ready(room, chunk[..Min(|chunk|, room)]))
  {
  }

  lemma {:induction false} BeforeKeeps(s: State, t: State, a: Answer)
    requires Transcript(s) && !s.fused && Before(a)
    requires t.answers == s.answers && t.fused == s.fused
    ensures Transcript(Told(t, a))
  {
  }

  lemma {:induction false} ServeConserves(s: State, room: nat, chunk: seq<byte>, rest: seq<byte>)
    requires rest == Data(s.channel) + InFlight(s) && s.produced == Delivered(s.answers) + chunk + rest
    ensures Conserved(Serve(s, room, chunk))
  {
    hide Delivered, Data;
    var s' := Serve(s, room, chunk);
    var n := Min(|chunk|, room);
    DeliveredAppend(s.answers, Ready(room, chunk[..n]));
    assert chunk[..n] + chunk[n..] == chunk;
    assert Held(s') == chunk[n..];
    assert s'.produced == Delivered(s.answers) + chunk[..n] + Held(s') + (Data(s'.channel) + InFlight(s'));
  }

  lemma {:induction false} EndKeeps(s: State, a: Answer)
    requires Transcript(s) && !s.fused && Delivered(s.answers) == s.produced && EndAnswer(a, s.outcome)
    ensures Transcript(Told(s.(fused := true), a))
  {
    var s' := Told(s.(fused := true), a);
    var k := |s.answers|;
    assert s'.answers[..k] == s.answers;
    assert EndsAt(s'.answers, k, s'.produced, s'.outcome);
  }

  lemma {:induction false} FusedKeeps(s: State, room: nat)
    requires Transcript(s) && s.fused
    ensures Transcript(Told(s, Ready(room, [])))
  {
    var s' := Told(s, Ready(room, []));
    var k: nat :| EndsAt(s.answers, k, s.produced, s.outcome);
    assert s'.answers[..k] == s.answers[..k];
    assert EndsAt(s'.answers, k, s'.produced, s'.outcome);
  }

  /** An answer without bytes changes nothing but the transcript. */
  lemma {:induction false} ToldKeeps(cap: nat, script: seq<Msg>, s: State, a: Answer)
    requires Inv(cap, script, s) && (a.Ready? ==> a.bytes == [])
    ensures var s' := Told(s, a); Sized(cap, s') && Conserved(s') && Faithful(script, s') && ErrorLast(s')
  {
    hide Delivered, Data, Yield, EndOf, Transcript;
    DeliveredAppend(s.answers, a);
  }

  lemma {:induction false} FusedPollKeeps(cap: nat, script: seq<Msg>, s: State, room: nat)
    requires Inv(cap, script, s) && s.alive && s.fused
    ensures Inv(cap, script, AfterPoll(s, room))
  {
    hide Delivered, Data, Yield, EndOf, Transcript, Sized, Conserved, Faithful, ErrorLast;
    FusedKeeps(s, room);
    ToldKeeps(cap, script, s, Ready(room, []));
  }

  lemma {:induction false} PartialPollKeeps(cap: nat, script: seq<Msg>, s: State, room: nat)
    requires Inv(cap, script, s) && s.alive && !s.fused && s.partial.Some?
    ensures Inv(cap, script, AfterPoll(s, room))
  {
    hide Delivered, Data, Yield, EndOf, Transcript, Faithful, InFlight;
    assert s.produced == Delivered(s.answers) + s.partial.value + (Data(s.channel) + InFlight(s));
    ServeKeeps(cap, script, s, room, s.partial.value, Data(s.channel) + InFlight(s));
  }

  lemma {:induction false} EofPollKeeps(cap: nat, script: seq<Msg>, s: State, room: nat)
    requires Inv(cap, script, s) && s.alive && !s.fused && s.partial == None && s.channel == [] && s.drainer.Done?
    ensures Inv(cap, script, AfterPoll(s, room))
  {
    hide Delivered, Yield, EndOf, Transcript;
    assert s.produced == Delivered(s.answers);
    EndKeeps(s, Ready(room, []));
    ToldKeeps(cap, script, s, Ready(room, []));
  }

  lemma {:induction false} PendingPollKeeps(cap: nat, script: seq<Msg>, s: State)
    requires Inv(cap, script, s) && !s.fused
    ensures Inv(cap, script, Told(s, Pending))
  {
    hide Delivered, Data, Yield, EndOf, Transcript, Sized, Conserved, Faithful, ErrorLast;
    ToldKeeps(cap, script, s, Pending);
    BeforeKeeps(s, s, Pending);
  }

  lemma {:induction false} PopChunkKeeps(cap: nat, script: seq<Msg>, s: State, room: nat)
    requires Inv(cap, script, s) && s.alive && !s.fused && s.partial == None && s.channel != [] && s.channel[0].Ok?
    ensures Inv(cap, script, AfterPoll(s, room))
  {
    hide Delivered, Yield, EndOf, Transcript, Faithful;
    var t, chunk := s.(channel := s.channel[1..]), s.channel[0].value;
    PoppedSized(cap, s, t);
    PoppedFaithful(script, s, t);
    assert s.produced == Delivered(s.answers) + chunk + (Data(t.channel) + InFlight(t));
    hide Data, AllFit, Sized;
    SameTranscript(s, t);
    assert AfterPoll(s, room) == Serve(t, room, chunk);
    ServeKeeps(cap, script, t, room, chunk, Data(t.channel) + InFlight(t));
  }

  lemma {:induction false} PoppedSized(cap: nat, s: State, t: State)
    requires Sized(cap, s) && s.channel != [] && t == s.(channel := s.channel[1..])
    ensures Sized(cap, t) && Fits(s.channel[0])
  {
  }

  lemma {:induction false} PoppedFaithful(script: seq<Msg>, s: State, t: State)
    requires Faithful(script, s) && s.channel != [] && t == s.(channel := s.channel[1..])
    ensures Faithful(script, t)
  {
    hide Yield, EndOf;
  }

  lemma {:induction false} SameTranscript(s: State, t: State)
    requires Transcript(s) && t.answers == s.answers && t.fused == s.fused == false
    ensures Transcript(t)
  {
  }

  lemma {:induction false} PopErrorKeeps(cap: nat, script: seq<Msg>, s: State, room: nat)
    requires Inv(cap, script, s) && s.alive && !s.fused && s.partial == None && s.channel != [] && s.channel[0].Err?
    ensures Inv(cap, script, AfterPoll(s, room))
  {
    hide Delivered, Yield, EndOf, Transcript, Faithful;
    var t, e := s.(channel := s.channel[1..]), s.channel[0].error;
    PoppedSized(cap, s, t);
    PoppedFaithful(script, s, t);
    assert t.channel == [] && Data(t.channel) == [];
    assert s.produced == Delivered(s.answers);
    SameTranscript(s, t);
    EndKeeps(t, Failed(e));
    DeliveredAppend(s.answers, Failed(e));
    FaithfulTold(script, t, Failed(e));
  }

  lemma {:induction false} FaithfulTold(script: seq<Msg>, s: State, a: Answer)
    requires Faithful(script, s)
    ensures Faithful(script, Told(s.(fused := true), a))
  {
    hide Yield, EndOf;
  }

  lemma {:induction false} PollKeeps(cap: nat, script: seq<Msg>, s: State, room: nat)
    requires Inv(cap, script, s) && s.alive
    ensures Inv(cap, script, AfterPoll(s, room))
  {
    hide Inv, Told, Serve;
    if s.fused {
      FusedPollKeeps(cap, script, s, room);
    } else if s.partial.Some? {
      PartialPollKeeps(cap, script, s, room);
    } else if s.channel != [] {
      if s.channel[0].Ok? {
        PopChunkKeeps(cap, script, s, room);
      } else {
        PopErrorKeeps(cap, script, s, room);
      }
    } else if s.drainer.Done? {
      EofPollKeeps(cap, script, s, room);
    } else {
      PendingPollKeeps(cap, script, s);
    }
  }

  lemma {:induction false} StepKeeps(cap: nat, script: seq<Msg>, s: State, ev: Event)
    requires Inv(cap, script, s) && Enabled(cap, s, ev)
    ensures Inv(cap, script, Next(s, ev))
  {
    hide Inv;
    match ev {
      case Read => ReadKeeps(cap, script, s);
      case Send => SendKeeps(cap, script, s);
      case Poll(room) => PollKeeps(cap, script, s, room);
      case Drop => DropKeeps(cap, script, s);
    }
  }

  lemma {:induction false} ExecKeeps(cap: nat, script: seq<Msg>, s: State, evs: seq<Event>)
    requires Inv(cap, script, s) && Exec(cap, s, evs).Some?
    ensures Inv(cap, script, Exec(cap, s, evs).value)
    decreases |evs|
  {
    hide Inv, Next;
    if evs != [] {
      StepKeeps(cap, script, s, evs[0]);
      ExecKeeps(cap, script, Next(s, evs[0]), evs[1..]);
    }
  }

  predicate Reaches(cap: nat, script: seq<Msg>, evs: seq<Event>, s: State) {
    AllFit(script) && Exec(cap, Init(script), evs) == Some(s)
  }

  lemma {:induction false} RunKeeps(cap: nat, script: seq<Msg>, evs: seq<Event>, s: State)
    requires Reaches(cap, script, evs, s)
    ensures Inv(cap, script, s)
  {
    hide Inv;
    InitInv(cap, script);
    ExecKeeps(cap, script, Init(script), evs);
  }

  // ---- Safety ----

  /** A reader that was told the end has been given exactly what the producer yielded, byte for
      byte and nothing else, then its error or end of file, then end of file for ever. */
  lemma {:induction false} EndTellsAll(cap: nat, script: seq<Msg>, evs: seq<Event>, s: State) returns (k: nat)
    requires Reaches(cap, script, evs, s) && s.fused
    ensures EndsAt(s.answers, k, Yield(script), EndOf(script))
  {
    RunKeeps(cap, script, evs, s);
    k :| EndsAt(s.answers, k, s.produced, s.outcome);
  }

  /** Until then no byte is lost, repeated or out of place, no poll with room comes back empty, and
      no error is told. */
  lemma {:induction false} NothingLost(cap: nat, script: seq<Msg>, evs: seq<Event>, s: State)
    requires Reaches(cap, script, evs, s) && s.alive
    ensures s.produced == Delivered(s.answers) + Held(s) + Data(s.channel) + InFlight(s)
    ensures s.produced <= Yield(script)
    ensures !s.fused ==> forall i :: 0 <= i < |s.answers| ==> Before(s.answers[i])
  {
    RunKeeps(cap, script, evs, s);
  }

  // ---- Memory ----

  /** Bytes taken from the producer and not yet handed to the reader. */
  function Ahead(s: State): nat {
    |Held(s)| + |Data(s.channel)| + |InFlight(s)|
  }

  lemma {:induction false} DataBound(msgs: seq<Msg>)
    requires AllFit(msgs)
    ensures |Data(msgs)| <= |msgs| * CHUNK
  {
    if msgs != [] {
      DataBound(msgs[1..]);
    }
  }

  /** The channel, the chunk in flight and the chunk left over: two chunks beyond the channel. */
  lemma {:induction false} AheadBound(cap: nat, script: seq<Msg>, evs: seq<Event>, s: State)
    requires Reaches(cap, script, evs, s)
    ensures Ahead(s) <= (cap + 2) * CHUNK
  {
    RunKeeps(cap, script, evs, s);
    DataBound(s.channel);
  }

  /** No poll comes without room, as from a reader that always brings a buffer. */
  predicate PollsHaveRoom(evs: seq<Event>) {
    forall i :: 0 <= i < |evs| && evs[i].Poll? ==> evs[i].room > 0
  }

  /** Such a poll leaves less than a chunk over. */
  predicate LessThanChunkHeld(s: State) {
    |Held(s)| < CHUNK
  }

  lemma {:induction false} RoomKeepsLess(cap: nat, s: State, ev: Event)
    requires Sized(cap, s) && LessThanChunkHeld(s) && Enabled(cap, s, ev) && (ev.Poll? ==> ev.room > 0)
    ensures LessThanChunkHeld(Next(s, ev))
  {
    if ev.Poll? && !s.fused && s.partial == None && s.channel != [] {
      assert Fits(s.channel[0]);
    }
  }

  lemma {:induction false} RunKeepsLess(cap: nat, script: seq<Msg>, s: State, evs: seq<Event>)
    requires Inv(cap, script, s) && LessThanChunkHeld(s) && PollsHaveRoom(evs) && Exec(cap, s, evs).Some?
    ensures LessThanChunkHeld(Exec(cap, s, evs).value)
    decreases |evs|
  {
    hide Inv, Next, LessThanChunkHeld;
    if evs != [] {
      InvSized(cap, script, s);
      RoomKeepsLess(cap, s, evs[0]);
      StepKeeps(cap, script, s, evs[0]);
      assert forall i :: 0 <= i < |evs[1..]| ==> evs[1..][i] == evs[i + 1];
      RunKeepsLess(cap, script, Next(s, evs[0]), evs[1..]);
    }
  }

  /** Polls with room keep the reader's side one byte below a chunk. */
  lemma {:induction false} AheadBoundWithRoom(cap: nat, script: seq<Msg>, evs: seq<Event>, s: State)
    requires Reaches(cap, script, evs, s) && PollsHaveRoom(evs)
    ensures Ahead(s) <= (cap + 2) * CHUNK - 1
  {
    RunKeeps(cap, script, evs, s);
    DataBound(s.channel);
    InitInv(cap, script);
    hide Inv;
    RunKeepsLess(cap, script, Init(script), evs);
    InvSized(cap, script, s);
  }

  function FullChunk(): (m: Msg)
    ensures m.Ok? && |m.value| == CHUNK && Fits(m)
  {
    Ok(seq<byte>(CHUNK, i => 0))
  }

  function FullScript(n: nat): (script: seq<Msg>)
    ensures |script| == n && AllFit(script)
  {
    seq(n, i => FullChunk())
  }

  /** With n places left in the channel the drainer takes n + 1 more chunks before it waits. */
  lemma {:induction false} Fill(cap: nat, s: State, n: nat) returns (evs: seq<Event>, t: State)
    requires s.alive && s.drainer.Reading? && |s.channel| + n == cap && s.script == FullScript(n + 1)
    ensures Exec(cap, s, evs) == Some(t) && t.drainer.Sending? && Ahead(t) == Ahead(s) + (n + 1) * CHUNK
    ensures forall i :: 0 <= i < |evs| ==> !evs[i].Poll?
    decreases n
  {
    var s1 := Next(s, Read);
    if n == 0 {
      evs, t := [Read], s1;
      assert Exec(cap, s, evs) == Exec(cap, s1, evs[1..]) == Some(t);
    } else {
      var s2 := Next(s1, Send);
      assert s2.script == FullScript(n);
      DataAppend(s.channel, FullChunk());
      var more;
      more, t := Fill(cap, s2, n - 1);
      evs := [Read, Send] + more;
      ExecTwo(cap, s, Read, Send, more);
    }
  }

  lemma {:induction false} ExecTwo(cap: nat, s: State, a: Event, b: Event, evs: seq<Event>)
    requires Enabled(cap, s, a) && Enabled(cap, Next(s, a), b)
    ensures Exec(cap, s, [a, b] + evs) == Exec(cap, Next(Next(s, a), b), evs)
  {
    assert ([a, b] + evs)[1..] == [b] + evs && ([b] + evs)[1..] == evs;
  }

  /** A full channel, a full chunk in flight, and a chunk on the reader's side of which a poll with
      this much room has taken some: after that poll the channel and the drainer fill up again. */
  lemma {:induction false} FillsUp(cap: nat, room: nat) returns (script: seq<Msg>, evs: seq<Event>, s: State)
    requires cap > 0 && room < CHUNK
    ensures Reaches(cap, script, evs, s) && Ahead(s) == (cap + 2) * CHUNK - room
    ensures room > 0 ==> PollsHaveRoom(evs)
  {
    script := FullScript(cap + 2);
    var s2 := Next(Next(Init(script), Read), Send);
    var s3 := Next(s2, Poll(room));
    assert s2.channel == [FullChunk()] && s3.channel == [];
    assert s3.script == FullScript(cap + 1);
    assert s3.partial == Some(FullChunk().value[room..]);
    var more;
    more, s := Fill(cap, s3, cap);
    assert ([Poll(room)] + more)[1..] == more;
    evs := [Read, Send] + ([Poll(room)] + more);
    ExecTwo(cap, Init(script), Read, Send, [Poll(room)] + more);
  }

  /** The bound is attained, by a poll without room ... */
  lemma {:induction false} AheadBoundAttained(cap: nat) returns (script: seq<Msg>, evs: seq<Event>, s: State)
    requires cap > 0
    ensures Reaches(cap, script, evs, s) && Ahead(s) == (cap + 2) * CHUNK
  {
    script, evs, s := FillsUp(cap, 0);
  }

  /** ... and the one for polls with room by a poll with room for one byte. */
  lemma {:induction false} RoomBoundAttained(cap: nat) returns (script: seq<Msg>, evs: seq<Event>, s: State)
    requires cap > 0
    ensures Reaches(cap, script, evs, s) && PollsHaveRoom(evs) && Ahead(s) == (cap + 2) * CHUNK - 1
  {
    script, evs, s := FillsUp(cap, 1);
  }

  ghost predicate PeakAbove(cap: nat, bytes: nat) {
    exists script, evs, s :: Reaches(cap, script, evs, s) && PollsHaveRoom(evs) && Ahead(s) > bytes
  }

  /** So the documented peak of one chunk over the cap is exceeded, by a reader that always has room,
      exactly unless the cap is at least four chunks and one byte short of the next. */
  lemma {:induction false} PeakExceedsDocumentedIff(capBytes: nat)
    ensures PeakAbove(ChannelCap(capBytes), capBytes + CHUNK) <==> !(capBytes >= 4 * CHUNK && capBytes % CHUNK == CHUNK - 1)
  {
    var cap := ChannelCap(capBytes);
    var script, evs, s := RoomBoundAttained(cap);
    if PeakAbove(cap, capBytes + CHUNK) {
      var script', evs', s' :| Reaches(cap, script', evs', s') && PollsHaveRoom(evs') && Ahead(s') > capBytes + CHUNK;
      AheadBoundWithRoom(cap, script', evs', s');
    }
  }

  /** With a poll without room it is exceeded for every cap. */
  lemma {:induction false} PeakExceedsDocumented(capBytes: nat) returns (script: seq<Msg>, evs: seq<Event>, s: State)
    ensures Reaches(ChannelCap(capBytes), script, evs, s) && Ahead(s) > capBytes + CHUNK
  {
    script, evs, s := AheadBoundAttained(ChannelCap(capBytes));
  }

  // ---- Progress ----

  function Weight(m: Msg): nat {
    if m.Ok? then |m.value| + 1 else 1
  }

  function Weights(msgs: seq<Msg>, each: nat): nat {
    if msgs == [] then 0 else Weight(msgs[0]) + each + Weights(msgs[1..], each)
  }

  lemma {:induction false} WeightsAppend(msgs: seq<Msg>, m: Msg, each: nat)
    ensures Weights(msgs + [m], each) == Weights(msgs, each) + Weight(m) + each
  {
    if msgs == [] {
      assert [m][1..] == [];
    } else {
      WeightsAppend(msgs[1..], m, each);
      assert (msgs + [m])[1..] == msgs[1..] + [m];
    }
  }

  /** Work still to do. */
  function Measure(s: State): nat {
    Weights(s.script, 2) + Weights(s.channel, 0) + |Held(s)|
    + (match s.drainer case Reading => 1 case Sending(m) => Weight(m) + 2 case Done => 0)
    + (if s.fused then 0 else 1) + (if s.alive then 1 else 0)
  }

  /** An event that moves something, rather than only answering a poll. */
  predicate Works(s: State, ev: Event)
    requires (ev.Read? ==> s.drainer.Reading?) && (ev.Send? ==> s.drainer.Sending?)
  {
    Next(s, ev).(answers := s.answers) != s
  }

  lemma {:induction false} StepWork(cap: nat, s: State, ev: Event)
    requires Enabled(cap, s, ev) && Sized(cap, s)
    ensures Measure(Next(s, ev)) + (if Works(s, ev) then 1 else 0) <= Measure(s)
  {
    if ev.Send? && s.alive {
      WeightsAppend(s.channel, s.drainer.m, 0);
    }
  }

  /** Events of a run that moved something. */
  function Work(cap: nat, s: State, evs: seq<Event>): nat
    decreases |evs|
  {
    if evs == [] || !Enabled(cap, s, evs[0]) then 0
    else (if Works(s, evs[0]) then 1 else 0) + Work(cap, Next(s, evs[0]), evs[1..])
  }

  /** However events interleave, only so many of them can move anything. */
  lemma {:induction false} WorkBound(cap: nat, script: seq<Msg>, s: State, evs: seq<Event>)
    requires Inv(cap, script, s) && Exec(cap, s, evs).Some?
    ensures Work(cap, s, evs) + Measure(Exec(cap, s, evs).value) <= Measure(s)
    decreases |evs|
  {
    hide Measure, Works, Next;
    if evs != [] {
      StepWork(cap, s, evs[0]);
      StepKeeps(cap, script, s, evs[0]);
      WorkBound(cap, script, Next(s, evs[0]), evs[1..]);
    }
  }

  /** What can move while the reader polls with room and has not been told the end. */
  function NextEvent(cap: nat, s: State, room: nat): Event {
    if s.drainer.Reading? then Read
    else if s.drainer.Sending? && |s.channel| < cap then Send
    else Poll(room)
  }

  /** No unfinished state is stuck. */
  lemma {:induction false} Progress(cap: nat, script: seq<Msg>, s: State, room: nat)
    requires Inv(cap, script, s) && s.alive && !s.fused && cap > 0 && room > 0
    ensures var ev := NextEvent(cap, s, room); Enabled(cap, s, ev) && Works(s, ev) && Next(s, ev).alive
  {
    hide Delivered, Data, Transcript, Before, Yield, EndOf;
    var ev := NextEvent(cap, s, room);
    if ev.Poll? {
      assert s.drainer.Done? || s.channel != [];
      var s' := AfterPoll(s, room);
      assert s'.partial != s.partial || s'.channel != s.channel || s'.fused;
    } else {
      assert Next(s, ev).drainer != s.drainer;
    }
  }

  /** Something other than the reader's going away can move, were the next poll to have room. */
  ghost predicate CanMove(cap: nat, s: State) {
    exists ev :: Moves(cap, s, ev)
  }

  predicate Moves(cap: nat, s: State, ev: Event) {
    Enabled(cap, s, ev) && Works(s, ev) && !ev.Drop? && (ev.Poll? ==> ev.room > 0)
  }

  lemma {:induction false} StaysAlive(cap: nat, s: State, evs: seq<Event>)
    requires s.alive && Drop !in evs && Exec(cap, s, evs).Some?
    ensures Exec(cap, s, evs).value.alive
    decreases |evs|
  {
    if evs != [] {
      assert evs[0] != Drop;
      StaysAlive(cap, Next(s, evs[0]), evs[1..]);
    }
  }

  /** However the events of a run interleave, as long as the reader stays: only so many of them move
      anything, and when nothing can move any more the reader has been told the end, nor can
      anything move once it has. */
  lemma {:induction false} EveryRunFinishes(cap: nat, script: seq<Msg>, evs: seq<Event>, s: State)
    requires Reaches(cap, script, evs, s) && Drop !in evs && cap > 0
    ensures Work(cap, Init(script), evs) <= Measure(Init(script))
    ensures s.fused <==> !CanMove(cap, s)
  {
    hide Measure, Inv, Works, Next, Work;
    InitInv(cap, script);
    WorkBound(cap, script, Init(script), evs);
    RunKeeps(cap, script, evs, s);
    StaysAlive(cap, Init(script), evs);
    if !s.fused {
      Progress(cap, script, s, 1);
      assert Moves(cap, s, NextEvent(cap, s, 1));
    } else if ev :| Moves(cap, s, ev) {
      FusedIsStill(cap, script, s, ev);
    }
  }

  lemma {:induction false} FusedIsStill(cap: nat, script: seq<Msg>, s: State, ev: Event)
    requires Inv(cap, script, s) && s.fused && Enabled(cap, s, ev) && !ev.Drop?
    ensures !Works(s, ev)
  {
  }

  /** A reader that keeps polling with room is told the end, in a bounded number of moves. */
  lemma {:induction false} Finishes(cap: nat, script: seq<Msg>, s: State, room: nat) returns (evs: seq<Event>, t: State)
    requires Inv(cap, script, s) && s.alive && cap > 0 && room > 0
    ensures Exec(cap, s, evs) == Some(t) && t.fused && |evs| <= Measure(s)
    decreases Measure(s)
  {
    hide Measure, Works, Next, Inv;
    if s.fused {
      evs, t := [], s;
    } else {
      var ev := NextEvent(cap, s, room);
      Progress(cap, script, s, room);
      StepWork(cap, s, ev) by { InvSized(cap, script, s); }
      StepKeeps(cap, script, s, ev);
      var more;
      more, t := Finishes(cap, script, Next(s, ev), room);
      evs := [ev] + more;
      assert evs[1..] == more;
    }
  }

  lemma {:induction false} InvSized(cap: nat, script: seq<Msg>, s: State)
    requires Inv(cap, script, s)
    ensures Sized(cap, s)
  {
  }

  // ---- The two sides as written ----

  /** The run grows by one event. */
  lemma {:induction false} ReachesOn(cap: nat, script: seq<Msg>, evs: seq<Event>, s: State, ev: Event)
    requires Reaches(cap, script, evs, s) && Enabled(cap, s, ev)
    ensures Reaches(cap, script, evs + [ev], Next(s, ev))
  {
    hide Next;
    ExecAppend(cap, Init(script), evs, [ev]);
    assert Exec(cap, s, [ev]) == Exec(cap, Next(s, ev), [ev][1..]);
  }

  /** What a reader does while the drainer waits. */
  datatype Act = PollWith(room: nat) | GoAway

  /** The channel with its two ends. The ghost fields record the run so far. */
  class Body {
    const cap: nat
    const whole: seq<Msg>
    var script: seq<Msg>
    var drainer: Drainer
    var channel: seq<Msg>
    var partial: Option<seq<byte>>
    var fused: bool
    var alive: bool
    ghost var produced: seq<byte>
    ghost var outcome: Outcome
    ghost var answers: seq<Answer>
    ghost var events: seq<Event>

    ghost function Abs(): State
      reads this
    {
      State(script, drainer, channel, partial, fused, alive, produced, outcome, answers)
    }

    /** The fields are the state that the recorded run leads to. */
    ghost predicate Valid()
      reads this
    {
      Reaches(cap, whole, events, Abs())
    }

    /** `spawn`: the drainer starts out awaiting the producer. */
    constructor (producer: seq<Msg>, capBytes: nat)
      requires AllFit(producer)
      ensures Valid() && Abs() == Init(producer) && whole == producer && cap == ChannelCap(capBytes)
    {
      cap := ChannelCap(capBytes);
      whole, script := producer, producer;
      drainer, channel, partial, fused, alive := Reading, [], None, false, true;
      produced, outcome, answers, events := [], Running, [], [];
    }

    /** `poll_read` with room for so many bytes. */
    method PollRead(room: nat) returns (answer: Answer)
      requires Valid() && alive
      modifies this
      ensures Valid() && Abs() == Next(old(Abs()), Poll(room)) && events == old(events) + [Poll(room)]
      ensures answers == old(answers) + [answer]
    {
      hide Reaches;
      ghost var before, evs := Abs(), events;
      if fused {
        answer := Ready(room, []);
      } else if partial.Some? {
        answer := ServeFrom(partial.value, room);
      } else if channel != [] {
        var msg := channel[0];
        channel := channel[1..];
        match msg {
          case Ok(chunk) =>
            answer := ServeFrom(chunk, room);
          case Err(e) =>
            fused := true;
            answer := Failed(e);
        }
      } else if drainer.Done? {
        fused := true;
        answer := Ready(room, []);
      } else {
        answer := Pending;
      }
      answers := answers + [answer];
      events := events + [Poll(room)];
      ReachesOn(cap, whole, evs, before, Poll(room));
    }

    /** Hand over what fits and keep the rest. */
    method ServeFrom(chunk: seq<byte>, room: nat) returns (answer: Answer)
      modifies this`partial
      ensures answer == Ready(room, chunk[..Min(|chunk|, room)])
      ensures partial == if room < |chunk| then Some(chunk[room..]) else None
    {
      partial := None;
      var n := Min(|chunk|, room);
      answer := Ready(room, chunk[..n]);
      if n < |chunk| {
        partial := Some(chunk[n..]);
      }
    }

    /** The reader is dropped. */
    method DropReader()
      requires Valid() && alive
      modifies this
      ensures Valid() && Abs() == Next(old(Abs()), Drop) && events == old(events) + [Drop]
    {
      hide Reaches;
      ghost var before, evs := Abs(), events;
      alive := false;
      events := events + [Drop];
      ReachesOn(cap, whole, evs, before, Drop);
    }

    /** The reader acts while the drainer awaits something; a reader that has gone does nothing. */
    method Interfere(acts: seq<Act>)
      requires Valid()
      modifies this
      ensures Valid() && drainer == old(drainer) && old(events) <= events
      ensures !old(alive) ==> !alive
    {
      hide Reaches;
      for i := 0 to |acts|
        invariant Valid() && drainer == old(drainer) && old(events) <= events
        invariant !old(alive) ==> !alive
      {
        if alive {
          match acts[i] {
            case PollWith(room) => var _ := PollRead(room);
            case GoAway => DropReader();
          }
        }
      }
    }

    /** One read of the producer, which takes the next entry of its script. */
    method ReadProducer() returns (got: Option<Msg>)
      requires Valid() && drainer == Reading
      modifies this
      ensures Valid() && Abs() == Next(old(Abs()), Read) && events == old(events) + [Read]
      ensures drainer == (match got case None => Done case Some(m) => Sending(m))
    {
      hide Reaches;
      ghost var before, evs := Abs(), events;
      if script == [] {
        drainer, outcome := Done, Finished;
        got := None;
      } else {
        var m := script[0];
        script := script[1..];
        drainer := Sending(m);
        match m {
          case Ok(bytes) => produced := produced + bytes;
          case Err(e) => outcome := Broke(e);
        }
        got := Some(m);
      }
      events := events + [Read];
      ReachesOn(cap, whole, evs, before, Read);
    }

    /** A send that can complete: into the channel, or in vain. */
    method CompleteSend(m: Msg) returns (ok: bool)
      requires Valid() && drainer == Sending(m) && (!alive || |channel| < cap)
      modifies this
      ensures Valid() && Abs() == Next(old(Abs()), Send) && events == old(events) + [Send]
      ensures ok == alive && drainer == if ok && m.Ok? then Reading else Done
    {
      hide Reaches;
      ghost var before, evs := Abs(), events;
      ok := alive;
      if ok {
        channel := channel + [m];
      }
      drainer := if ok && m.Ok? then Reading else Done;
      events := events + [Send];
      ReachesOn(cap, whole, evs, before, Send);
    }

    /** `drain_loop`. At its t-th wait the reader performs turns[t]; when the turns run out the
        loop is left suspended where it is. Whatever the turns, the run so far is a run of the step
        system and all its bytes are accounted for. */
    method DrainLoop(turns: seq<seq<Act>>)
      requires Valid() && drainer == Reading
      modifies this
      ensures Valid() && old(events) <= events
      ensures alive ==> produced == Delivered(answers) + Held(Abs()) + Data(channel) + InFlight(Abs())
      ensures Ahead(Abs()) <= (cap + 2) * CHUNK
    {
      Drain(turns);
      NothingLostIf(cap, whole, events, Abs());
      AheadBound(cap, whole, events, Abs());
    }

    method Drain(turns: seq<seq<Act>>)
      requires Valid() && drainer == Reading
      modifies this
      ensures Valid() && old(events) <= events
    {
      hide Reaches;
      var t := 0;
      while t < |turns|
        invariant 0 <= t <= |turns| && Valid() && drainer == Reading && old(events) <= events
      {
        Interfere(turns[t]);
        t := t + 1;
        var got := ReadProducer();
        if got == None {
          return;
        }
        while t < |turns| && alive && |channel| >= cap
          invariant 0 <= t <= |turns| && Valid() && drainer == Sending(got.value) && old(events) <= events
        {
          Interfere(turns[t]);
          t := t + 1;
        }
        if alive && |channel| >= cap {
          return;
        }
        var ok := CompleteSend(got.value);
        if !ok || got.value.Err? {
          return;
        }
      }
    }
  }

  lemma {:induction false} NothingLostIf(cap: nat, script: seq<Msg>, evs: seq<Event>, s: State)
    requires Reaches(cap, script, evs, s)
    ensures s.alive ==> s.produced == Delivered(s.answers) + Held(s) + Data(s.channel) + InFlight(s)
  {
    if s.alive {
      NothingLost(cap, script, evs, s);
    }
  }
}
