/** The live-session controller: the mutable state of one translation session and the handlers
    that change it (start, the transport callbacks, inbound messages, audio completion,
    teardown and finishing the consultation). Audio decoding, capture wiring and the transport
    itself are outside; their results arrive as parameters. */
module LiveSession {
  import opened Wrappers
  import opened Text
  import opened Types
  import opened Transcript

  datatype Status = Idle | Connecting | Connected | Error

  /** The live session handle the transport resolves to. */
  datatype SessionHandle = SessionHandle(id: nat)

  /** One scheduled playback of a decoded buffer. */
  class AudioSource {
    const startAt: real
    const duration: real
    var stopped: bool

    constructor (startAt: real, duration: real)
      ensures this.startAt == startAt && this.duration == duration && !stopped
    {
      this.startAt := startAt;
      this.duration := duration;
      stopped := false;
    }

    function End(): real {
      startAt + duration
    }

    /** `source.stop()`. */
    method Stop()
      modifies this
      ensures stopped
    {
      stopped := true;
    }
  }

  /** The captured microphone stream; its tracks are live until stopped. */
  class MediaStream {
    var live: bool

    constructor ()
      ensures live
    {
      live := true;
    }

    /** `getTracks().forEach(t => t.stop())`. */
    method StopTracks()
      modifies this
      ensures !live
    {
      live := false;
    }
  }

  class LiveTranslator {
    var status: Status
    var isLive: bool
    var transcript: seq<ChatMessage>
    var currentInput: string
    var currentOutput: string
    var streamingInput: string
    var streamingOutput: string
    var nextStartTime: real
    var sources: set<AudioSource>
    var stream: MediaStream?
    var session: Option<SessionHandle>

    /** Every scheduled source ends by the playback cursor, and no two scheduled sources overlap. */
    ghost predicate Valid()
      reads this
    {
      && (forall s :: s in sources ==> s.duration >= 0.0 && s.End() <= nextStartTime)
      && (forall a, b :: a in sources && b in sources && a != b ==> a.End() <= b.startAt || b.End() <= a.startAt)
    }

    /** The accumulators and the committed transcript, as one value. */
    function Text(): TextState
      reads this
    {
      TextState(currentInput, currentOutput, transcript)
    }

    constructor ()
      ensures Valid()
      ensures status == Idle && !isLive && stream == null && session == None
      ensures Text() == TextState("", "", []) && streamingInput == "" && streamingOutput == ""
      ensures nextStartTime == 0.0 && sources == {}
    {
      status := Idle;
      isLive := false;
      transcript := [];
      currentInput := "";
      currentOutput := "";
      streamingInput := "";
      streamingOutput := "";
      nextStartTime := 0.0;
      sources := {};
      stream := null;
      session := None;
    }

    /** `startSession`: without an API key the user is alerted and nothing changes; otherwise
        the status becomes `'connecting'`. When the set-up up to the microphone succeeds (the
        client, resuming both audio contexts, `getUserMedia`) the new stream is kept; a failure
        in any of these steps reaches the `catch`, which sets `'error'`. */
    method StartSession(apiKey: string, setupSucceeded: bool) returns (alerted: bool)
      modifies this
      ensures alerted <==> apiKey == ""
      ensures alerted ==> unchanged(this)
      ensures !alerted && setupSucceeded ==> status == Connecting && stream != null && fresh(stream) && stream.live
      ensures !alerted && !setupSucceeded ==> status == Error && stream == old(stream)
      ensures isLive == old(isLive) && session == old(session) && Text() == old(Text())
      ensures streamingInput == old(streamingInput) && streamingOutput == old(streamingOutput)
      ensures nextStartTime == old(nextStartTime) && sources == old(sources)
    {
      if apiKey == "" {
        return true;
      }
      alerted := false;
      status := Connecting;
      if setupSucceeded {
        stream := new MediaStream();
      } else {
        status := Error;
      }
    }

    /** The transport's `onopen`. */
    method OnOpen()
      modifies this
      ensures status == Connected && isLive
      ensures stream == old(stream) && session == old(session) && Text() == old(Text())
      ensures streamingInput == old(streamingInput) && streamingOutput == old(streamingOutput)
      ensures nextStartTime == old(nextStartTime) && sources == old(sources)
    {
      status := Connected;
      isLive := true;
    }

    /** The transport's `onclose`. */
    method OnClose()
      modifies this
      ensures status == Idle && !isLive
      ensures stream == old(stream) && session == old(session) && Text() == old(Text())
      ensures streamingInput == old(streamingInput) && streamingOutput == old(streamingOutput)
      ensures nextStartTime == old(nextStartTime) && sources == old(sources)
    {
      isLive := false;
      status := Idle;
    }

    /** The transport's `onerror`. */
    method OnError()
      modifies this
      ensures status == Error && !isLive
      ensures stream == old(stream) && session == old(session) && Text() == old(Text())
      ensures streamingInput == old(streamingInput) && streamingOutput == old(streamingOutput)
      ensures nextStartTime == old(nextStartTime) && sources == old(sources)
    {
      status := Error;
      isLive := false;
    }

    /** The connect promise resolving: the session slot is filled. */
    method OnSessionResolved(handle: SessionHandle)
      modifies this
      ensures session == Some(handle)
      ensures status == old(status) && isLive == old(isLive) && stream == old(stream) && Text() == old(Text())
      ensures streamingInput == old(streamingInput) && streamingOutput == old(streamingOutput)
      ensures nextStartTime == old(nextStartTime) && sources == old(sources)
    {
      session := Some(handle);
    }

    /** The audio half of `handleMessage`: a buffer that would start in the past starts now,
        and the cursor moves to the end of the new source. */
    method ScheduleAudio(duration: real, now: real) returns (src: AudioSource)
      requires Valid() && duration >= 0.0
      modifies this
      ensures Valid()
      ensures fresh(src) && !src.stopped
      ensures src.startAt == StartTime(old(nextStartTime), now) && src.duration == duration
      ensures nextStartTime == src.End() && sources == old(sources) + {src}
      ensures status == old(status) && isLive == old(isLive) && stream == old(stream) && session == old(session)
      ensures Text() == old(Text()) && streamingInput == old(streamingInput) && streamingOutput == old(streamingOutput)
    {
      if nextStartTime < now {
        nextStartTime := now;
      }
      src := new AudioSource(nextStartTime, duration);
      nextStartTime := nextStartTime + duration;
      sources := sources + {src};
    }

    /** The partial-text half of `handleMessage`: output first, then input; a non-empty partial
        also refreshes its live display. */
    method AppendPartials(outText: Option<string>, inText: Option<string>)
      modifies this
      ensures currentOutput == AppendPartial(old(currentOutput), outText)
      ensures currentInput == AppendPartial(old(currentInput), inText)
      ensures streamingOutput == (if outText.Some? && outText.value != "" then currentOutput else old(streamingOutput))
      ensures streamingInput == (if inText.Some? && inText.value != "" then currentInput else old(streamingInput))
      ensures transcript == old(transcript) && nextStartTime == old(nextStartTime) && sources == old(sources)
      ensures status == old(status) && isLive == old(isLive) && stream == old(stream) && session == old(session)
    {
      if outText.Some? && outText.value != "" {
        currentOutput := currentOutput + outText.value;
        streamingOutput := currentOutput;
      }
      if inText.Some? && inText.value != "" {
        currentInput := currentInput + inText.value;
        streamingInput := currentInput;
      }
    }

    /** The turn boundary: each non-blank accumulator becomes one trimmed line (input before
        output) and is cleared together with its display. */
    method CommitAccumulators(stamp: int)
      modifies this
      ensures Text() == CommitTurn(old(Text()), stamp)
      ensures streamingInput == (if IsBlank(old(currentInput)) then old(streamingInput) else "")
      ensures streamingOutput == (if IsBlank(old(currentOutput)) then old(streamingOutput) else "")
      ensures nextStartTime == old(nextStartTime) && sources == old(sources)
      ensures status == old(status) && isLive == old(isLive) && stream == old(stream) && session == old(session)
    {
      ghost var before := Text();
      ghost var entries := TurnEntries(before.input, before.output, stamp);
      var newItems: seq<ChatMessage> := [];
      if !IsBlank(currentInput) {
        newItems := newItems + [Line(User, currentInput, stamp)];
        currentInput := "";
        streamingInput := "";
      }
      ghost var userItems := newItems;
      if !IsBlank(currentOutput) {
        newItems := newItems + [Line(Model, currentOutput, stamp)];
        currentOutput := "";
        streamingOutput := "";
      }
      EntriesInTwoSteps(before.input, before.output, stamp, userItems, newItems);
      if |newItems| > 0 {
        transcript := transcript + newItems;
      }
      assert transcript == before.log + entries;
    }

    /** `handleMessage`: schedule the decoded audio (if any) at `max(nextStartTime, now)` and
        advance the cursor past it, append the partials, and on `turnComplete` commit the
        accumulators. The new source is returned so that its `onended` can be delivered. */
    method HandleMessage(ev: ServerEvent, now: real, stamp: int) returns (src: AudioSource?)
      requires Valid()
      requires ev.audioDuration.Some? ==> ev.audioDuration.value >= 0.0
      modifies this
      ensures Valid()
      ensures Text() == ApplyText(old(Text()), ev, stamp)
      ensures streamingInput == NextDisplay(old(streamingInput), old(currentInput), ev.inText, ev.turnComplete)
      ensures streamingOutput == NextDisplay(old(streamingOutput), old(currentOutput), ev.outText, ev.turnComplete)
      ensures ev.audioDuration.None? ==> src == null && sources == old(sources) && nextStartTime == old(nextStartTime)
      ensures ev.audioDuration.Some? ==>
        && src != null && fresh(src) && !src.stopped
        && src.startAt == StartTime(old(nextStartTime), now)
        && src.duration == ev.audioDuration.value
        && nextStartTime == src.End()
        && sources == old(sources) + {src}
      ensures status == old(status) && isLive == old(isLive) && stream == old(stream) && session == old(session)
    {
      src := null;
      if ev.audioDuration.Some? {
        src := ScheduleAudio(ev.audioDuration.value, now);
      }
      ghost var scheduled := (nextStartTime, sources);
      AppendPartials(ev.outText, ev.inText);
      if ev.turnComplete {
        CommitAccumulators(stamp);
      }
      assert (nextStartTime, sources) == scheduled;
    }

    /** A source's `onended`: that source, and only it, leaves the set. */
    method OnEnded(src: AudioSource)
      requires Valid()
      modifies this
      ensures Valid()
      ensures sources == old(sources) - {src}
      ensures status == old(status) && isLive == old(isLive) && stream == old(stream) && session == old(session)
      ensures Text() == old(Text()) && nextStartTime == old(nextStartTime)
      ensures streamingInput == old(streamingInput) && streamingOutput == old(streamingOutput)
    {
      sources := sources - {src};
    }

    /** `stopSession`: stop the microphone tracks and drop the stream, stop every scheduled
        source and empty the set, drop the session, and report `'idle'`. The accumulators, the
        transcript and the playback cursor are left alone. */
    method StopSession()
      requires Valid()
      modifies this, sources, if stream == null then {} else {stream}
      ensures Valid()
      ensures stream == null && sources == {} && session == None && !isLive && status == Idle
      ensures old(stream) != null ==> !old(stream).live
      ensures forall s :: s in old(sources) ==> s.stopped
      ensures Text() == old(Text()) && nextStartTime == old(nextStartTime)
      ensures streamingInput == old(streamingInput) && streamingOutput == old(streamingOutput)
    {
      if stream != null {
        stream.StopTracks();
        stream := null;
      }
      var pending := sources;
      while pending != {}
        invariant pending <= old(sources)
        invariant forall s :: s in old(sources) - pending ==> s.stopped
        modifies old(sources)
        decreases pending
      {
        var s :| s in pending;
        s.Stop();
        pending := pending - {s};
      }
      sources := {};
      if session.Some? {
        session := None;
      }
      isLive := false;
      status := Idle;
    }

    /** `handleFinishConsultation`: tear down, then hand on the committed transcript followed by
        the trimmed pending texts, and clear both accumulators. The component's own transcript
        list is not changed. */
    method HandleFinishConsultation(stamp: int) returns (finalTranscript: seq<ChatMessage>)
      requires Valid()
      modifies this, sources, if stream == null then {} else {stream}
      ensures Valid()
      ensures finalTranscript == FinalTranscript(old(Text()), stamp)
      ensures Text() == TextState("", "", old(transcript))
      ensures stream == null && sources == {} && session == None && !isLive && status == Idle
      ensures old(stream) != null ==> !old(stream).live
      ensures forall s :: s in old(sources) ==> s.stopped
      ensures nextStartTime == old(nextStartTime)
      ensures streamingInput == old(streamingInput) && streamingOutput == old(streamingOutput)
    {
      StopSession();
      finalTranscript := CapturePending(transcript, currentInput, currentOutput, stamp);
      currentInput := "";
      currentOutput := "";
    }
  }

  /** The capture step of `handleFinishConsultation`: a copy of the committed lines, then each
      pending accumulator that is present and not blank, trimmed. */
  method CapturePending(log: seq<ChatMessage>, input: string, output: string, stamp: int)
    returns (finalTranscript: seq<ChatMessage>)
    ensures finalTranscript == FinalTranscript(TextState(input, output, log), stamp)
  {
    finalTranscript := log;
    if input != "" && !IsBlank(input) {
      finalTranscript := finalTranscript + [ChatMessage(User, Trim(input), stamp)];
    }
    if output != "" && !IsBlank(output) {
      finalTranscript := finalTranscript + [ChatMessage(Model, Trim(output), stamp)];
    }
  }

  /** Teardown is idempotent: a second `stopSession` finds and leaves the state the first one
      left. */
  method StopTwice(t: LiveTranslator)
    requires t.Valid()
    modifies t, t.sources, if t.stream == null then {} else {t.stream}
    ensures t.Valid()
    ensures t.stream == null && t.sources == {} && t.session == None && !t.isLive && t.status == Idle
    ensures t.Text() == old(t.Text()) && t.nextStartTime == old(t.nextStartTime)
    ensures t.streamingInput == old(t.streamingInput) && t.streamingOutput == old(t.streamingOutput)
  {
    t.StopSession();
    var once := (t.status, t.isLive, t.session, t.Text(), t.nextStartTime, t.streamingInput, t.streamingOutput);
    t.StopSession();
    assert (t.status, t.isLive, t.session, t.Text(), t.nextStartTime, t.streamingInput, t.streamingOutput) == once;
  }
}
