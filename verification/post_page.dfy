/** The behaviour of the post page of src/pages/BlogPostPage.js apart from its
    markup: the redirect when the slug names no post, and the read-aloud
    control, a three-state machine that drives the browser's speech engine.
    Engine calls are modelled as the commands the page issues. */
module PostPage {
  import opened Wrappers
  import opened Posts
  import opened PlainText

  // ---------------------------------------------------------------------------
  // The not-found guard.

  datatype Page = Redirect(to: string) | Article(post: Post)

  /** With no post for the slug the page renders `<Navigate to="/blog" replace />`;
      otherwise it renders the post that `getPostBySlug` found. */
  function ShowPost(posts: seq<Post>, slug: string): (page: Page)
    ensures page.Redirect? <==> forall i :: 0 <= i < |posts| ==> posts[i].id != slug
    ensures page.Redirect? ==> page.to == "/blog"
    ensures page.Article? ==> page.post.id == slug && page.post in posts
    ensures page.Article? ==> FindById(posts, slug) == Some(page.post)
  {
    match FindById(posts, slug)
    case None => Redirect("/blog")
    case Some(post) => Article(post)
  }

  /** The shipped slug shows the shipped post; every other slug redirects. */
  lemma ShippedSlugs(slug: string)
    ensures ShowPost(BlogPosts, slug) ==
      if slug == "fundamentos-arquitectura-software" then Article(Fundamentos) else Redirect("/blog")
  {
    if slug == "fundamentos-arquitectura-software" {
      FixtureLookup();
    } else {
      FixtureUnknownSlug(slug);
    }
  }

  // ---------------------------------------------------------------------------
  // Reading aloud.

  datatype SpeechState = Idle | Playing | Paused

  /** A `SpeechSynthesisUtterance` as configured by the page. The voice, the
      first engine voice whose language starts with "es", is left to the engine. */
  datatype Utterance = Utterance(text: string, lang: string, rate: real)

  /** Calls the page makes on `window.speechSynthesis`. */
  datatype Command = Speak(utterance: Utterance) | PauseSpeech | ResumeSpeech | CancelSpeech

  /** What can happen to the control: a press of the listen/pause/continue
      button, a press of the stop button, and the two callbacks of the
      utterance being spoken. */
  datatype Event = Activate | Stop | EngineEnded | EngineFailed

  /** The text read aloud: the title, a pause, and the plain text of the body. */
  function SpeechText(post: Post): (text: string)
    ensures |post.title| + 2 <= |text| && text[..|post.title| + 2] == post.title + ". "
    ensures '\n' !in post.title ==> '\n' !in text
  {
    post.title + ". " + GetPlainText(post.content)
  }

  /** The utterance built when reading starts: always Spanish, at 0.9 speed. */
  function UtteranceFor(post: Post): Utterance {
    Utterance(SpeechText(post), "es-ES", 9.0 / 10.0)
  }

  datatype Transition = Transition(next: SpeechState, commands: seq<Command>)

  /** `handleSpeech`, `stopSpeech` and the `onend`/`onerror` handlers. `speech`
      is `UtteranceFor(post)` of the post on the page; it is spoken only when
      reading starts from idle. */
  function Handle(state: SpeechState, speech: Utterance, event: Event): (t: Transition)
    ensures event == Stop ==> t == Transition(Idle, [CancelSpeech])
    ensures event == EngineEnded || event == EngineFailed ==> t == Transition(Idle, [])
    ensures event == Activate ==> t.next != state && t.next != Idle && |t.commands| == 1
    ensures event == Activate ==> (t.commands[0].Speak? <==> state == Idle)
  {
    match event
    case Activate =>
      (match state
       case Idle => Transition(Playing, [Speak(speech)])
       case Playing => Transition(Paused, [PauseSpeech])
       case Paused => Transition(Playing, [ResumeSpeech]))
    case Stop => Transition(Idle, [CancelSpeech])
    case EngineEnded => Transition(Idle, [])
    case EngineFailed => Transition(Idle, [])
  }

  /** The clean-up of the mount effect: leaving the page cancels any speech. */
  function Unmount(): seq<Command> {
    [CancelSpeech]
  }

  /** The states visited and the commands issued by a sequence of events. */
  function Trace(state: SpeechState, speech: Utterance, events: seq<Event>): (r: (seq<SpeechState>, seq<Command>))
    ensures |r.0| == |events|
    decreases |events|
  {
    if events == [] then ([], [])
    else
      var t := Handle(state, speech, events[0]);
      var rest := Trace(t.next, speech, events[1..]);
      ([t.next] + rest.0, t.commands + rest.1)
  }

  /** Listen, pause, continue, stop: the control goes through playing, paused,
      playing and back to idle, and the engine is told to speak, pause, resume
      and cancel. */
  lemma ListenPauseContinueStop(speech: Utterance)
    ensures Trace(Idle, speech, [Activate, Activate, Activate, Stop]) ==
      ([Playing, Paused, Playing, Idle],
       [Speak(speech), PauseSpeech, ResumeSpeech, CancelSpeech])
  {
    var u := speech;
    TraceOne(Playing, speech, Stop);
    var t4 := Trace(Playing, speech, [Stop]);
    assert t4 == ([Idle], [CancelSpeech]);
    TraceCons(Paused, speech, Activate, [Stop]);
    assert [Activate, Stop] == [Activate] + [Stop];
    var t3 := Trace(Paused, speech, [Activate, Stop]);
    assert t3.0 == [Playing] + t4.0 == [Playing, Idle];
    assert t3.1 == [ResumeSpeech] + t4.1 == [ResumeSpeech, CancelSpeech];
    TraceCons(Playing, speech, Activate, [Activate, Stop]);
    assert [Activate, Activate, Stop] == [Activate] + [Activate, Stop];
    var t2 := Trace(Playing, speech, [Activate, Activate, Stop]);
    assert t2.0 == [Paused] + t3.0 == [Paused, Playing, Idle];
    assert t2.1 == [PauseSpeech] + t3.1 == [PauseSpeech, ResumeSpeech, CancelSpeech];
    TraceCons(Idle, speech, Activate, [Activate, Activate, Stop]);
    assert [Activate, Activate, Activate, Stop] == [Activate] + [Activate, Activate, Stop];
    var t1 := Trace(Idle, speech, [Activate, Activate, Activate, Stop]);
    assert Handle(Idle, speech, Activate) == Transition(Playing, [Speak(u)]);
    assert t1.0 == [Playing] + t2.0 == [Playing, Paused, Playing, Idle];
    assert t1.1 == [Speak(u)] + t2.1 == [Speak(u), PauseSpeech, ResumeSpeech, CancelSpeech];
  }

  /** A single event. */
  lemma TraceOne(state: SpeechState, speech: Utterance, event: Event)
    ensures var t := Handle(state, speech, event);
      Trace(state, speech, [event]) == ([t.next], t.commands)
  {
    var t := Handle(state, speech, event);
    TraceCons(state, speech, event, []);
    assert [event] == [event] + [];
    var none: seq<Event> := [];
    assert Trace(t.next, speech, none) == ([], []);
    assert [t.next] + [] == [t.next];
    assert t.commands + [] == t.commands;
  }

  /** One event, then the rest. */
  lemma TraceCons(state: SpeechState, speech: Utterance, event: Event, events: seq<Event>)
    ensures var t := Handle(state, speech, event);
      var rest := Trace(t.next, speech, events);
      Trace(state, speech, [event] + events) == ([t.next] + rest.0, t.commands + rest.1)
  {
    assert ([event] + events)[1..] == events;
  }

  /** Once reading has started, two presses of the main button come back to the
      same state, one pause and one resume later: the button alone never stops
      the reading. */
  lemma PauseResumeRoundTrip(state: SpeechState, speech: Utterance)
    requires state != Idle
    ensures var first := Handle(state, speech, Activate);
      var second := Handle(first.next, speech, Activate);
      second.next == state && first.next != Idle &&
      multiset(first.commands + second.commands) == multiset{PauseSpeech, ResumeSpeech}
  {
  }

  // ---------------------------------------------------------------------------
  // An idealised engine, to state what the page assumes of it.

  /** The engine is silent, speaking an utterance, or holding it paused. */
  datatype Engine = Silent | Speaking(utterance: Utterance) | Held(utterance: Utterance)

  /** The engine after a command. A paused engine asked to speak would queue
      the utterance; the page never does that, see `Consistent`. */
  function Perform(engine: Engine, command: Command): Engine {
    match command
    case Speak(u) => if engine.Silent? then Speaking(u) else engine
    case PauseSpeech => if engine.Speaking? then Held(engine.utterance) else engine
    case ResumeSpeech => if engine.Held? then Speaking(engine.utterance) else engine
    case CancelSpeech => Silent
  }

  function PerformAll(engine: Engine, commands: seq<Command>): Engine
    decreases |commands|
  {
    if commands == [] then engine else PerformAll(Perform(engine, commands[0]), commands[1..])
  }

  /** The control and the engine agree: idle while silent, playing while
      speaking, paused while holding. */
  predicate Consistent(state: SpeechState, engine: Engine) {
    match state
    case Idle => engine.Silent?
    case Playing => engine.Speaking?
    case Paused => engine.Held?
  }

  /** Can the event happen? Button presses always can; the engine reports the
      end only of an utterance it is speaking, and a failure while it has one. */
  predicate Possible(engine: Engine, event: Event) {
    match event
    case EngineEnded => engine.Speaking?
    case EngineFailed => !engine.Silent?
    case _ => true
  }

  /** The engine after the page's commands for an event, and after the event
      itself when the engine is its source. */
  function EngineAfter(engine: Engine, commands: seq<Command>, event: Event): Engine {
    if event == EngineEnded || event == EngineFailed then Silent
    else PerformAll(engine, commands)
  }

  /** Every possible event keeps the control and the engine in agreement, and
      a freshly started reading speaks the utterance of the page. */
  lemma HandleKeepsConsistent(state: SpeechState, engine: Engine, speech: Utterance, event: Event)
    requires Consistent(state, engine) && Possible(engine, event)
    ensures var t := Handle(state, speech, event);
      Consistent(t.next, EngineAfter(engine, t.commands, event))
    ensures state == Idle && event == Activate ==>
      EngineAfter(engine, Handle(state, speech, event).commands, event) == Speaking(speech)
  {
    var t := Handle(state, speech, event);
    if event != EngineEnded && event != EngineFailed {
      PerformOne(engine, t.commands[0]);
      assert t.commands == [t.commands[0]];
    }
  }

  /** Starting to read the post on the page asks the engine to speak its title,
      a pause and its plain text, in Spanish at 0.9 speed, and a silent engine
      then speaks exactly that. */
  lemma StartReading(post: Post, engine: Engine)
    requires engine.Silent?
    ensures Handle(Idle, UtteranceFor(post), Activate) ==
      Transition(Playing, [Speak(Utterance(post.title + ". " + GetPlainText(post.content), "es-ES", 9.0 / 10.0))])
    ensures EngineAfter(engine, Handle(Idle, UtteranceFor(post), Activate).commands, Activate) ==
      Speaking(Utterance(post.title + ". " + GetPlainText(post.content), "es-ES", 9.0 / 10.0))
  {
    HandleKeepsConsistent(Idle, engine, UtteranceFor(post), Activate);
  }

  lemma PerformOne(engine: Engine, command: Command)
    ensures PerformAll(engine, [command]) == Perform(engine, command)
  {
    assert [command][1..] == [];
  }

  /** Leaving the page silences the engine whatever it was doing. */
  lemma UnmountSilences(engine: Engine)
    ensures PerformAll(engine, Unmount()) == Silent
  {
    assert Unmount()[1..] == [];
  }
}
