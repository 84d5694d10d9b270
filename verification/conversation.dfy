/**
 * The conversation page: who controls the conversation (the AI or a
 * supervisor who has taken over), the transcript, the composer's input
 * buffer and the templates dialog. Each handler is a pure transition on the
 * page state; the rendering decides which handlers can fire, and `Enabled`
 * states that gate.
 */
module Conversation {
  import opened Options
  import opened Text
  import VariableFiller

  /** Who wrote a message. */
  datatype Role = User | Assistant | Supervisor

  /** One transcript entry; the timestamp is the formatted clock time, passed in. */
  datatype Message = Message(role: Role, content: string, timestamp: string)

  /** The page state: `isTakenOver`, `messages`, `inputValue` and `showTemplates`. */
  datatype Page = Page(takenOver: bool, messages: seq<Message>, input: string, showTemplates: bool)

  /** The page as it opens: AI in control, the given transcript, an empty buffer, the dialog closed. */
  function Initial(transcript: seq<Message>): Page {
    Page(false, transcript, "", false)
  }

  /** `handleTakeover`. */
  function TakeOver(c: Page): (r: Page)
    ensures r.takenOver
    ensures r.messages == c.messages && r.input == c.input && r.showTemplates == c.showTemplates
  {
    c.(takenOver := true)
  }

  /** `handleReturnToAI`. */
  function ReturnToAI(c: Page): (r: Page)
    ensures !r.takenOver
    ensures r.messages == c.messages && r.input == c.input && r.showTemplates == c.showTemplates
  {
    c.(takenOver := false)
  }

  /** `handleSendMessage`, with the clock reading passed in as `timestamp`. */
  function SendMessage(c: Page, timestamp: string): (r: Page)
    ensures IsBlank(c.input) ==> r == c
    ensures !IsBlank(c.input) ==>
      && r.messages == c.messages + [Message(Supervisor, c.input, timestamp)]
      && r.input == ""
      && r.takenOver == c.takenOver && r.showTemplates == c.showTemplates
  {
    TrimEmptyIffBlank(c.input);
    if Trim(c.input) == "" then c
    else c.(messages := c.messages + [Message(Supervisor, c.input, timestamp)], input := "")
  }

  /** The buffer after a voice transcript: appended, with a space unless the buffer was empty. */
  function MergeTranscript(buffer: string, transcript: string): (r: string)
    ensures buffer <= r && |transcript| <= |r| && r[|r| - |transcript|..] == transcript
    ensures buffer == "" ==> r == transcript
    ensures buffer != "" ==> |r| == |buffer| + 1 + |transcript| && r[|buffer|] == ' '
  {
    buffer + (if buffer != "" then " " else "") + transcript
  }

  /** `handleVoiceTranscript`: the transcript is merged into the buffer; nothing else changes. */
  function VoiceTranscript(c: Page, transcript: string): (r: Page)
    ensures r.input == MergeTranscript(c.input, transcript)
    ensures r.messages == c.messages && r.takenOver == c.takenOver && r.showTemplates == c.showTemplates
  {
    c.(input := MergeTranscript(c.input, transcript))
  }

  /** The typed text replaces the buffer (the input's `onChange`). */
  function EditInput(c: Page, text: string): (r: Page)
    ensures r.input == text
    ensures r.messages == c.messages && r.takenOver == c.takenOver && r.showTemplates == c.showTemplates
  {
    c.(input := text)
  }

  /** `handleUseTemplate`: the filled text replaces the buffer and the dialog closes. */
  function UseTemplate(c: Page, filled: string): (r: Page)
    ensures r.input == filled && !r.showTemplates
    ensures r.messages == c.messages && r.takenOver == c.takenOver
  {
    c.(input := filled, showTemplates := false)
  }

  /** The Templates button: `setShowTemplates(true)`. */
  function OpenTemplates(c: Page): (r: Page)
    ensures r.showTemplates
    ensures r.messages == c.messages && r.takenOver == c.takenOver && r.input == c.input
  {
    c.(showTemplates := true)
  }

  /** Cancelling or dismissing the dialog: `setShowTemplates(false)`. */
  function CloseTemplates(c: Page): (r: Page)
    ensures !r.showTemplates
    ensures r.messages == c.messages && r.takenOver == c.takenOver && r.input == c.input
  {
    c.(showTemplates := false)
  }

  /** What the supervisor can do on the page. */
  datatype Event =
    | TakeOverClicked
    | ReturnClicked
    | TemplatesClicked
    | Typed(text: string)
    | SendClicked(timestamp: string)
    | Voice(transcript: string)
    | TemplateUsed(filled: string)
    | DialogClosed

  /**
   * The rendering gate: the Take Over button shows only while the AI is in
   * control; the Templates and Return to AI buttons and the composer (input,
   * voice, send) show only after a take-over; the filler lives in the dialog.
   * The gate says which controls are rendered, not which are reachable: the
   * dialog's overlay, which covers the page while the dialog is open, is not
   * modelled, so page controls stay enabled behind it.
   */
  predicate Enabled(c: Page, e: Event) {
    match e
    case TakeOverClicked => !c.takenOver
    case ReturnClicked => c.takenOver
    case TemplatesClicked => c.takenOver
    case Typed(_) => c.takenOver
    case SendClicked(_) => c.takenOver
    case Voice(_) => c.takenOver
    case TemplateUsed(_) => c.showTemplates
    case DialogClosed => c.showTemplates
  }

  /** The handler an event fires. */
  function Apply(c: Page, e: Event): Page {
    match e
    case TakeOverClicked => TakeOver(c)
    case ReturnClicked => ReturnToAI(c)
    case TemplatesClicked => OpenTemplates(c)
    case Typed(text) => EditInput(c, text)
    case SendClicked(timestamp) => SendMessage(c, timestamp)
    case Voice(transcript) => VoiceTranscript(c, transcript)
    case TemplateUsed(filled) => UseTemplate(c, filled)
    case DialogClosed => CloseTemplates(c)
  }

  /** One event on the page: `None` when the control it comes from is not rendered. */
  function Step(c: Page, e: Event): (r: Option<Page>)
    ensures r.Some? <==> Enabled(c, e)
  {
    if Enabled(c, e) then Some(Apply(c, e)) else None
  }

  /** A sequence of events; an event whose control is not rendered cannot happen and is skipped. */
  function Run(c: Page, events: seq<Event>): Page
    decreases |events|
  {
    if events == [] then c
    else Run(Step(c, events[0]).GetOr(c), events[1..])
  }

  /**
   * One step never removes, changes or reorders a message; when it adds one,
   * it adds exactly one, authored by the supervisor, and only under
   * supervisor control.
   */
  lemma StepAppendsOnlySupervisorMessages(c: Page, e: Event)
    requires Step(c, e).Some?
    ensures var r := Step(c, e).value;
      && c.messages <= r.messages
      && |r.messages| <= |c.messages| + 1
      && (|r.messages| > |c.messages| ==>
            c.takenOver && r.messages[|c.messages|].role == Supervisor)
  {
  }

  /**
   * Over any sequence of events the transcript only grows: the messages it
   * started with stay in place, and every message added since was written by
   * the supervisor.
   */
  lemma {:induction false} RunAppendsOnlySupervisorMessages(c: Page, events: seq<Event>)
    ensures c.messages <= Run(c, events).messages
    ensures forall k :: |c.messages| <= k < |Run(c, events).messages| ==>
      Run(c, events).messages[k].role == Supervisor
    decreases |events|
  {
    if events != [] {
      var next := Step(c, events[0]).GetOr(c);
      NextAppendsOnlySupervisorMessages(c, events[0]);
      RunAppendsOnlySupervisorMessages(next, events[1..]);
      assert Run(c, events) == Run(next, events[1..]);
      forall k | |c.messages| <= k < |Run(c, events).messages|
        ensures Run(c, events).messages[k].role == Supervisor
      {
        if k >= |next.messages| {
          assert Run(next, events[1..]).messages[k].role == Supervisor;
        } else {
          assert Run(next, events[1..]).messages[k] == next.messages[k];
        }
      }
    }
  }

  /** The page after one event, skipped or not, keeps the transcript and adds only supervisor messages. */
  lemma NextAppendsOnlySupervisorMessages(c: Page, e: Event)
    ensures var r := Step(c, e).GetOr(c);
      && c.messages <= r.messages
      && forall k :: |c.messages| <= k < |r.messages| ==> r.messages[k].role == Supervisor
  {
    if Step(c, e).Some? {
      StepAppendsOnlySupervisorMessages(c, e);
    }
  }

  /**
   * The message a filler emits through its Use button, handed to the open
   * dialog, becomes the buffer: the filler's preview, verbatim.
   */
  lemma FillerUseFillsBuffer(c: Page, f: VariableFiller.Filler)
    requires c.showTemplates && VariableFiller.UseEnabled(f)
    ensures var m := VariableFiller.Use(f);
      && m.Some?
      && Step(c, TemplateUsed(m.value)).Some?
      && Step(c, TemplateUsed(m.value)).value.input == f.preview
      && !Step(c, TemplateUsed(m.value)).value.showTemplates
  {
  }

  /**
   * The composer, the Templates button and Return to AI are rendered exactly
   * under supervisor control (whether the dialog's overlay covers them is not
   * part of the gate).
   */
  lemma ComposerRequiresTakeOver(c: Page, e: Event)
    requires e.Typed? || e.SendClicked? || e.Voice? || e.TemplatesClicked? || e.ReturnClicked?
    ensures Enabled(c, e) <==> c.takenOver
  {
  }

  /** Take Over is offered exactly while the AI is in control. */
  lemma TakeOverOfferedIff(c: Page)
    ensures Enabled(c, TakeOverClicked) <==> !c.takenOver
  {
  }

  /** Handing control back undoes a take-over. */
  lemma ReturnUndoesTakeOver(c: Page)
    requires !c.takenOver
    ensures ReturnToAI(TakeOver(c)) == c
  {
  }

  /** A second take-over is not an error: it changes nothing. */
  lemma TakeOverIdempotent(c: Page)
    ensures TakeOver(TakeOver(c)) == TakeOver(c)
  {
  }

  /** Voice transcripts delivered one after another. */
  function MergeAll(buffer: string, transcripts: seq<string>): string
    decreases |transcripts|
  {
    if transcripts == [] then buffer
    else MergeAll(MergeTranscript(buffer, transcripts[0]), transcripts[1..])
  }

  /** Onto a non-empty buffer, transcripts are joined with single spaces. */
  lemma {:induction false} MergeAllJoins(buffer: string, transcripts: seq<string>)
    requires buffer != ""
    ensures MergeAll(buffer, transcripts) == Join([buffer] + transcripts, " ")
    decreases |transcripts|
  {
    if transcripts != [] {
      var next := MergeTranscript(buffer, transcripts[0]);
      MergeAllJoins(next, transcripts[1..]);
      var parts := [buffer] + transcripts;
      assert parts[1..] == transcripts;
      assert [transcripts[0]] + transcripts[1..] == transcripts;
      JoinFirstTwo(buffer, transcripts[0], transcripts[1..], " ");
    }
  }

  /** Joining the first two parts first gives the same text. */
  lemma JoinFirstTwo(a: string, b: string, rest: seq<string>, sep: string)
    ensures Join([a + sep + b] + rest, sep) == Join([a] + ([b] + rest), sep)
  {
    var xs := [a] + ([b] + rest);
    assert xs[1..] == [b] + rest;
    if rest != [] {
      assert ([b] + rest)[1..] == rest;
      assert ([a + sep + b] + rest)[1..] == rest;
    }
  }

  /** From an empty buffer, a first non-empty transcript and those after it are joined with single spaces. */
  lemma MergeAllFromEmpty(first: string, transcripts: seq<string>)
    requires first != ""
    ensures MergeAll("", [first] + transcripts) == Join([first] + transcripts, " ")
  {
    assert ([first] + transcripts)[1..] == transcripts;
    assert MergeTranscript("", first) == first;
    MergeAllJoins(first, transcripts);
  }

  /** "Thanks" followed by the transcript "for waiting" gives "Thanks for waiting". */
  lemma VoiceExample()
    ensures MergeTranscript("Thanks", "for waiting") == "Thanks for waiting"
  {
  }

  /** A filled template replaces whatever was typed or dictated, and sending it sends it verbatim. */
  lemma TemplateThenSend(c: Page, filled: string, timestamp: string)
    requires c.takenOver && c.showTemplates && !IsBlank(filled)
    ensures var r := Run(c, [TemplateUsed(filled), SendClicked(timestamp)]);
      && r.messages == c.messages + [Message(Supervisor, filled, timestamp)]
      && r.input == "" && !r.showTemplates && r.takenOver
  {
    var events := [TemplateUsed(filled), SendClicked(timestamp)];
    var c1 := UseTemplate(c, filled);
    assert Step(c, events[0]) == Some(c1);
    assert events[1..] == [SendClicked(timestamp)];
    var c2 := SendMessage(c1, timestamp);
    assert Step(c1, SendClicked(timestamp)) == Some(c2);
    assert [SendClicked(timestamp)][1..] == [];
    assert Run(c1, [SendClicked(timestamp)]) == Run(c2, []);
  }
}
