/** The value-level rules of a live session: how transcription partials accumulate, what a turn
    boundary commits, what finishing a consultation flushes, and where returned audio is
    scheduled. The session controller (module LiveSession) is specified by these functions. */
module Transcript {
  import opened Wrappers
  import opened Text
  import opened Types

  /** One message from the translation service, as far as the controller reads it: the duration
      of the decoded audio buffer when the message carried audio, the output- and
      input-transcription partials, and the turn-complete flag. */
  datatype ServerEvent = ServerEvent(
    audioDuration: Option<real>,
    outText: Option<string>,
    inText: Option<string>,
    turnComplete: bool)

  /** The text a session owns: the pending input and output accumulators and the committed
      transcript. */
  datatype TextState = TextState(input: string, output: string, log: seq<ChatMessage>)

  /** The text a partial contributes; an absent partial and an empty one contribute nothing. */
  function PartText(part: Option<string>): string {
    if part.Some? then part.value else ""
  }

  /** `if (part) acc += part`: JavaScript skips both a missing and an empty partial. */
  function AppendPartial(acc: string, part: Option<string>): (r: string)
    ensures r == acc + PartText(part)
  {
    if part.Some? && part.value != "" then acc + part.value else acc
  }

  /** The lines one turn boundary commits: the trimmed input as a `'user'` line, then the trimmed
      output as a `'model'` line, each only when it is not blank. */
  function TurnEntries(input: string, output: string, stamp: int): (r: seq<ChatMessage>)
    ensures |r| == (if IsBlank(input) then 0 else 1) + (if IsBlank(output) then 0 else 1)
    ensures forall i :: 0 <= i < |r| ==> r[i].timestamp == stamp
    ensures forall i :: 0 <= i < |r| && r[i].role == User ==> i == 0 && r[i].text == Trim(input)
    ensures forall i :: 0 <= i < |r| && r[i].role == Model ==> i == |r| - 1 && r[i].text == Trim(output)
    ensures !IsBlank(input) ==> r[0] == ChatMessage(User, Trim(input), stamp)
    ensures !IsBlank(output) ==> r[|r| - 1] == ChatMessage(Model, Trim(output), stamp)
  {
    if IsBlank(input) then (if IsBlank(output) then [] else [Line(Model, output, stamp)])
    else if IsBlank(output) then [Line(User, input, stamp)]
    else [Line(User, input, stamp), Line(Model, output, stamp)]
  }

  /** One committed line, holding the trimmed text of a non-blank accumulator. */
  function Line(role: ChatRole, text: string, stamp: int): ChatMessage
    requires !IsBlank(text)
  {
    ChatMessage(role, Trim(text), stamp)
  }

  /** Every committed line has text, and nothing in it is left to trim. */
  lemma CommittedLinesAreClean(input: string, output: string, stamp: int)
    ensures forall i :: 0 <= i < |TurnEntries(input, output, stamp)| ==>
      && TurnEntries(input, output, stamp)[i].text != ""
      && Trim(TurnEntries(input, output, stamp)[i].text) == TurnEntries(input, output, stamp)[i].text
  {
    TrimIdempotent(input);
    TrimIdempotent(output);
  }

  /** The commit as the controller builds it: the input line, then the output line appended. */
  lemma EntriesInTwoSteps(input: string, output: string, stamp: int, first: seq<ChatMessage>, both: seq<ChatMessage>)
    requires first == if IsBlank(input) then [] else [Line(User, input, stamp)]
    requires both == if IsBlank(output) then first else first + [Line(Model, output, stamp)]
    ensures both == TurnEntries(input, output, stamp)
  {
  }

  /** The turn-complete branch: non-blank accumulators are committed and reset to `''`; a blank
      one is neither committed nor reset. */
  function CommitTurn(st: TextState, stamp: int): TextState {
    TextState(
      if IsBlank(st.input) then st.input else "",
      if IsBlank(st.output) then st.output else "",
      st.log + TurnEntries(st.input, st.output, stamp))
  }

  /** After a commit both accumulators are blank, each either kept or reset to `''`, and the
      transcript has gained at most two lines at its end. */
  lemma CommitTurnLeavesBlank(st: TextState, stamp: int)
    ensures var r := CommitTurn(st, stamp);
      && IsBlank(r.input) && IsBlank(r.output)
      && (r.input == st.input || r.input == "") && (r.output == st.output || r.output == "")
      && |st.log| <= |r.log| <= |st.log| + 2 && r.log[..|st.log|] == st.log
  {
    assert IsBlank("");
    assert CommitTurn(st, stamp).log[..|st.log|] == st.log;
  }

  /** The text effect of one message: the output partial, then the input partial, then (on
      `turnComplete`) the commit. */
  function ApplyText(st: TextState, ev: ServerEvent, stamp: int): TextState {
    var appended := st.(output := AppendPartial(st.output, ev.outText), input := AppendPartial(st.input, ev.inText));
    if ev.turnComplete then CommitTurn(appended, stamp) else appended
  }

  /** The value of a streaming display after a message: the accumulator after a non-empty
      partial, `''` once its accumulator is committed, and otherwise what it showed before. */
  function NextDisplay(display: string, acc: string, part: Option<string>, turnComplete: bool): (r: string)
    ensures r == display || r == "" || r == AppendPartial(acc, part)
    ensures part.None? && !turnComplete ==> r == display
  {
    var appended := AppendPartial(acc, part);
    if turnComplete && !IsBlank(appended) then ""
    else if part.Some? && part.value != "" then appended
    else display
  }

  /** A streaming display that showed its accumulator goes on showing it after any message. */
  lemma DisplayFollowsAccumulator(display: string, acc: string, part: Option<string>, turnComplete: bool)
    requires display == acc
    ensures NextDisplay(display, acc, part, turnComplete)
      == (var a := acc + PartText(part); if turnComplete && !IsBlank(a) then "" else a)
  {
  }

  /** One message never rewrites the committed transcript: it adds at most two lines after it,
      and none unless the message completes a turn. */
  lemma ApplyTextExtendsLog(st: TextState, ev: ServerEvent, stamp: int)
    ensures var r := ApplyText(st, ev, stamp);
      |st.log| <= |r.log| <= |st.log| + 2 && r.log[..|st.log|] == st.log
      && (!ev.turnComplete ==> r.log == st.log)
  {
    var r := ApplyText(st, ev, stamp);
    assert r.log[..|st.log|] == st.log;
  }

  /** What a message completing a turn does, in terms of the accumulators after its partials:
      each non-blank one becomes one line (input first) and is reset, a blank one stays. */
  lemma TurnCompleteEffect(st: TextState, ev: ServerEvent, stamp: int)
    requires ev.turnComplete
    ensures var a, b, r := st.input + PartText(ev.inText), st.output + PartText(ev.outText), ApplyText(st, ev, stamp);
      && r.log == st.log + TurnEntries(a, b, stamp)
      && r.input == (if IsBlank(a) then a else "")
      && r.output == (if IsBlank(b) then b else "")
  {
  }

  /** White space left in an accumulator by a turn that committed nothing is harmless: the next
      commit trims it away. */
  lemma CarriedWhiteSpaceIsDropped(w: string, x: string, output: string, stamp: int)
    requires AllWhite(w)
    ensures TurnEntries(w + x, output, stamp) == TurnEntries(x, output, stamp)
  {
    TrimWhitePrefix(w, x);
  }

  /** A run of messages, each with its clock value. */
  function Replay(st: TextState, evs: seq<ServerEvent>, stamps: seq<int>): TextState
    requires |stamps| == |evs|
    decreases |evs|
  {
    if evs == [] then st
    else Replay(ApplyText(st, evs[0], stamps[0]), evs[1..], stamps[1..])
  }

  function InputParts(evs: seq<ServerEvent>): string
    decreases |evs|
  {
    if evs == [] then "" else PartText(evs[0].inText) + InputParts(evs[1..])
  }

  function OutputParts(evs: seq<ServerEvent>): string
    decreases |evs|
  {
    if evs == [] then "" else PartText(evs[0].outText) + OutputParts(evs[1..])
  }

  predicate NoTurnBoundary(evs: seq<ServerEvent>) {
    forall i :: 0 <= i < |evs| ==> !evs[i].turnComplete
  }

  /** Within a turn, partials accumulate in arrival order and nothing is committed. */
  lemma {:induction false} PartialsAccumulate(st: TextState, evs: seq<ServerEvent>, stamps: seq<int>)
    requires |stamps| == |evs|
    requires NoTurnBoundary(evs)
    ensures Replay(st, evs, stamps) == TextState(st.input + InputParts(evs), st.output + OutputParts(evs), st.log)
    decreases |evs|
  {
    if evs != [] {
      var st1 := ApplyText(st, evs[0], stamps[0]);
      assert NoTurnBoundary(evs[1..]) by {
        forall i | 0 <= i < |evs[1..]| ensures !evs[1..][i].turnComplete {
          assert evs[1..][i] == evs[i + 1];
        }
      }
      PartialsAccumulate(st1, evs[1..], stamps[1..]);
      assert st.input + InputParts(evs) == st1.input + InputParts(evs[1..]);
      assert st.output + OutputParts(evs) == st1.output + OutputParts(evs[1..]);
    } else {
      assert st.input + "" == st.input;
      assert st.output + "" == st.output;
    }
  }

  /** A turn made of partial messages and one turn-complete message: the transcript gains one line
      per non-blank accumulated text, input before output, and earlier lines stay as they were. */
  lemma TurnOfPartials(st: TextState, evs: seq<ServerEvent>, stamps: seq<int>, last: ServerEvent, stamp: int)
    requires |stamps| == |evs|
    requires NoTurnBoundary(evs) && last.turnComplete
    ensures var a, b := st.input + InputParts(evs) + PartText(last.inText), st.output + OutputParts(evs) + PartText(last.outText);
      var r := Replay(st, evs + [last], stamps + [stamp]);
      && r.log == st.log + TurnEntries(a, b, stamp)
      && (!IsBlank(a) ==> r.input == "")
      && (!IsBlank(b) ==> r.output == "")
  {
    ReplaySplit(st, evs, stamps, last, stamp);
    PartialsAccumulate(st, evs, stamps);
  }

  lemma {:induction false} ReplaySplit(st: TextState, evs: seq<ServerEvent>, stamps: seq<int>, last: ServerEvent, stamp: int)
    requires |stamps| == |evs|
    ensures Replay(st, evs + [last], stamps + [stamp]) == ApplyText(Replay(st, evs, stamps), last, stamp)
    decreases |evs|
  {
    if evs == [] {
      assert evs + [last] == [last];
      assert stamps + [stamp] == [stamp];
    } else {
      assert (evs + [last])[1..] == evs[1..] + [last];
      assert (stamps + [stamp])[1..] == stamps[1..] + [stamp];
      ReplaySplit(ApplyText(st, evs[0], stamps[0]), evs[1..], stamps[1..], last, stamp);
    }
  }

  /** The transcript `handleFinishConsultation` hands on: the committed lines, then each pending
      accumulator that is present and not blank, trimmed. */
  function FinalTranscript(st: TextState, stamp: int): (r: seq<ChatMessage>)
    ensures |st.log| <= |r| <= |st.log| + 2 && r[..|st.log|] == st.log
    ensures forall i :: |st.log| <= i < |r| ==> r[i].text != "" && r[i].timestamp == stamp
  {
    st.log
      + (if st.input != "" && !IsBlank(st.input) then [ChatMessage(User, Trim(st.input), stamp)] else [])
      + (if st.output != "" && !IsBlank(st.output) then [ChatMessage(Model, Trim(st.output), stamp)] else [])
  }

  /** Finishing mid-turn loses nothing: the final transcript is what a turn boundary would have
      committed at that point. */
  lemma FinishCommitsLikeTurnBoundary(st: TextState, stamp: int)
    ensures FinalTranscript(st, stamp) == CommitTurn(st, stamp).log
    ensures forall i :: 0 <= i < |st.log| ==> FinalTranscript(st, stamp)[i] == st.log[i]
  {
    assert IsBlank("");
  }

  /** Where a buffer arriving at `now` starts: `max(cursor, now)`. */
  function StartTime(cursor: real, now: real): (t: real)
    ensures t >= now && t >= cursor
    ensures t == now || t == cursor
  {
    if cursor < now then now else cursor
  }

  /** A decoded buffer as the scheduler sees it: when it arrived and how long it plays. */
  datatype Arrival = Arrival(now: real, duration: real)

  /** When a scheduled buffer plays. */
  datatype Slot = Slot(start: real, end: real)

  /** The slots a run of arrivals is given when the cursor starts at `cursor`. */
  function Plan(cursor: real, arrivals: seq<Arrival>): seq<Slot>
    decreases |arrivals|
  {
    if arrivals == [] then []
    else
      var start := StartTime(cursor, arrivals[0].now);
      [Slot(start, start + arrivals[0].duration)] + Plan(start + arrivals[0].duration, arrivals[1..])
  }

  /** Playback is sequential and gap-minimal: each buffer starts at the later of its arrival time
      and the end of the buffer before it (the initial cursor for the first), plays for its
      duration, and no two buffers overlap. */
  lemma {:induction false} PlanIsSequential(cursor: real, arrivals: seq<Arrival>)
    requires forall i :: 0 <= i < |arrivals| ==> arrivals[i].duration >= 0.0
    ensures var slots := Plan(cursor, arrivals);
      && |slots| == |arrivals|
      && (forall i :: 0 <= i < |slots| ==>
            slots[i].start == StartTime(if i == 0 then cursor else slots[i - 1].end, arrivals[i].now)
            && slots[i].end == slots[i].start + arrivals[i].duration)
      && (forall i :: 0 <= i < |slots| ==> slots[i].start >= arrivals[i].now && slots[i].start >= cursor)
      && (forall i, j :: 0 <= i < j < |slots| ==> slots[i].end <= slots[j].start)
    decreases |arrivals|
  {
    if arrivals != [] {
      var start := StartTime(cursor, arrivals[0].now);
      var next := start + arrivals[0].duration;
      var rest := Plan(next, arrivals[1..]);
      PlanIsSequential(next, arrivals[1..]);
      var slots := Plan(cursor, arrivals);
      assert slots == [Slot(start, next)] + rest;
      forall i | 1 <= i < |slots| ensures slots[i] == rest[i - 1] {
      }
      forall i | 0 <= i < |slots| ensures slots[i].start >= cursor {
        if i > 0 { assert rest[i - 1].start >= next; }
      }
      forall i, j | 0 <= i < j < |slots| ensures slots[i].end <= slots[j].start {
        if i == 0 { assert rest[j - 1].start >= next; }
      }
    }
  }
}
