/** The media player of the State-pattern exercise.

    The Java classes `StoppedState`, `PlayingState` and `PausedState` each answer the
    three buttons; `MediaPlayer` holds the current state object and forwards every press
    to it. Here the state objects become the constructors of `PlayerState`, the dispatch
    becomes one total transition function, and every printed line becomes the `message`
    the press returns. */
module MediaPlayer {

  datatype PlayerState = Stopped | Playing | Paused

  datatype Button = Play | Pause | Stop

  /** The lines the player prints, one constructor per distinct `println`. */
  datatype Line =
    | Initialized | StartsPlaying | CannotPause | AlreadyStopped | AlreadyPlaying
    | PausesVideo | StopsVideo | ResumesPlaying | AlreadyPaused

  /** The exact console text of each line. */
  function Text(line: Line): string {
    match line
    case Initialized => "Media Player initialized."
    case StartsPlaying => "Starts playing."
    case CannotPause => "Cannot pause. Player is stopped."
    case AlreadyStopped => "Already stopped."
    case AlreadyPlaying => "Already playing."
    case PausesVideo => "Pauses video."
    case StopsVideo => "Stops video."
    case ResumesPlaying => "Resumes playing."
    case AlreadyPaused => "Already paused."
  }

  /** The lines a state prints when a press has no effect ("Already ..." / "Cannot ..."). */
  predicate IsRefusal(line: Line) {
    line.CannotPause? || line.AlreadyStopped? || line.AlreadyPlaying? || line.AlreadyPaused?
  }

  /** What one press does: the state the player is left in and the line it prints. */
  datatype Reaction = Reaction(next: PlayerState, message: Line)

  /** Every line of `messages` is a refusal. */
  predicate AllRefusals(messages: seq<Line>) {
    forall i :: 0 <= i < |messages| ==> IsRefusal(messages[i])
  }

  /** The refusal a player in state `s` prints for a press that changes nothing: it names
      the state the player is already in, except that pausing a stopped player is refused
      because nothing is playing. */
  function RefusalIn(s: PlayerState, b: Button): Line {
    match s
    case Stopped => if b == Pause then CannotPause else AlreadyStopped
    case Playing => AlreadyPlaying
    case Paused => AlreadyPaused
  }

  /** The line announcing a real move from `from` to `to`. */
  function MoveLine(from: PlayerState, to: PlayerState): Line {
    match to
    case Playing => if from == Paused then ResumesPlaying else StartsPlaying
    case Paused => PausesVideo
    case Stopped => StopsVideo
  }

  /** The player as constructed: the initial state and the line the constructor prints. */
  function NewPlayer(): (r: Reaction)
    ensures r.next == Stopped
    ensures !IsRefusal(r.message)
    ensures Text(r.message) == "Media Player initialized."
  {
    Reaction(Stopped, Initialized)
  }

  /** One press of button `b` while in state `s`: the transition table of the three
      state classes. The player moves exactly when the printed line is not a refusal;
      a refusal names the state the player stays in, and a move announces itself.
      Stop always stops, Play always plays, and Pause never plays. */
  function Step(s: PlayerState, b: Button): (r: Reaction)
    ensures r.next != s <==> !IsRefusal(r.message)
    ensures r.next == s ==> r.message == RefusalIn(s, b)
    ensures r.next != s ==> r.message == MoveLine(s, r.next)
    ensures b == Stop ==> r.next == Stopped
    ensures b == Play ==> r.next == Playing
    ensures b == Pause ==> r.next != Playing
  {
    match (s, b)
    case (Stopped, Play) => Reaction(Playing, StartsPlaying)
    case (Stopped, Pause) => Reaction(Stopped, CannotPause)
    case (Stopped, Stop) => Reaction(Stopped, AlreadyStopped)
    case (Playing, Play) => Reaction(Playing, AlreadyPlaying)
    case (Playing, Pause) => Reaction(Paused, PausesVideo)
    case (Playing, Stop) => Reaction(Stopped, StopsVideo)
    case (Paused, Play) => Reaction(Playing, ResumesPlaying)
    case (Paused, Pause) => Reaction(Paused, AlreadyPaused)
    case (Paused, Stop) => Reaction(Stopped, StopsVideo)
  }

  /** The outcome of a sequence of presses: the final state and every printed line. */
  datatype Session = Session(final: PlayerState, messages: seq<Line>)

  /** Presses `bs` in order, starting in `s`. One line is printed per press, and a
      session in which every line is a refusal leaves the player where it started. */
  function Run(s: PlayerState, bs: seq<Button>): (r: Session)
    ensures |r.messages| == |bs|
    ensures AllRefusals(r.messages) ==> r.final == s
    decreases |bs|
  {
    if |bs| == 0 then Session(s, [])
    else
      var first := Step(s, bs[0]);
      var rest := Run(first.next, bs[1..]);
      var messages := [first.message] + rest.messages;
      assert AllRefusals(messages) ==> IsRefusal(first.message) && AllRefusals(rest.messages) by {
        if AllRefusals(messages) {
          assert messages[0] == first.message;
          forall i | 0 <= i < |rest.messages|
            ensures IsRefusal(rest.messages[i])
          {
            assert messages[i + 1] == rest.messages[i];
          }
        }
      }
      Session(rest.final, messages)
  }

  /** Only a Playing player can really be paused; from Stopped and Paused, Pause just
      prints a refusal. */
  lemma OnlyPlayingPauses(s: PlayerState)
    ensures Step(s, Pause).next == Paused <==> s != Stopped
    ensures Step(s, Pause).next != s <==> s == Playing
  {
  }

  /** Pressing the same button twice in a row has the effect of pressing it once;
      the second press only prints a refusal. */
  lemma PressTwiceIsPressOnce(s: PlayerState, b: Button)
    ensures Step(Step(s, b).next, b).next == Step(s, b).next
    ensures IsRefusal(Step(Step(s, b).next, b).message)
  {
  }

  /** Running two sessions back to back is one session over the joined presses. */
  lemma {:induction false} RunAppend(s: PlayerState, a: seq<Button>, b: seq<Button>)
    ensures Run(s, a + b).final == Run(Run(s, a).final, b).final
    ensures Run(s, a + b).messages == Run(s, a).messages + Run(Run(s, a).final, b).messages
    decreases |a|
  {
    if |a| == 0 {
      assert a + b == b;
    } else {
      var first := Step(s, a[0]);
      assert (a + b)[0] == a[0];
      assert (a + b)[1..] == a[1..] + b;
      RunAppend(first.next, a[1..], b);
      var head := Run(first.next, a[1..]);
      var mid := Run(s, a).final;
      assert mid == head.final;
      assert Run(s, a + b).messages == [first.message] + Run(first.next, a[1..] + b).messages;
      assert Run(s, a).messages == [first.message] + head.messages;
      assert [first.message] + (head.messages + Run(mid, b).messages) ==
             ([first.message] + head.messages) + Run(mid, b).messages;
    }
  }

  /** A session ending in Stop always ends Stopped. */
  lemma EndingWithStopStops(s: PlayerState, bs: seq<Button>)
    ensures Run(s, bs + [Stop]).final == Stopped
  {
    RunAppend(s, bs, [Stop]);
  }

  /** A run of Pause presses leaves a Stopped player Stopped and otherwise ends Paused. */
  lemma {:induction false} OnlyPauses(s: PlayerState, bs: seq<Button>)
    requires forall j :: 0 <= j < |bs| ==> bs[j] == Pause
    ensures Run(s, bs).final == (if |bs| == 0 || s == Stopped then s else Paused)
    decreases |bs|
  {
    if |bs| > 0 {
      OnlyPauses(Step(s, Pause).next, bs[1..]);
    }
  }

  /** The final state is decided by the last Play or Stop press: after a Stop it is
      Stopped; after a Play it is Playing, or Paused if Pause was pressed afterwards. */
  lemma LastPlayOrStopDecides(s: PlayerState, bs: seq<Button>, i: nat)
    requires i < |bs| && bs[i] != Pause
    requires forall j :: i < j < |bs| ==> bs[j] == Pause
    ensures Run(s, bs).final ==
      (if bs[i] == Stop then Stopped else if i == |bs| - 1 then Playing else Paused)
  {
    var head := bs[..i];
    var tail := bs[i + 1..];
    assert bs == (head + [bs[i]]) + tail;
    RunAppend(s, head + [bs[i]], tail);
    RunAppend(s, head, [bs[i]]);
    var mid := Run(s, head + [bs[i]]).final;
    assert mid == (if bs[i] == Stop then Stopped else Playing);
    OnlyPauses(mid, tail);
  }

  /** The demonstration in `main`: play, pause, play, stop, pause on a new player. */
  lemma DemoSession()
    ensures Run(NewPlayer().next, [Play, Pause, Play, Stop, Pause]) ==
      Session(Stopped, [StartsPlaying, PausesVideo, ResumesPlaying, StopsVideo, CannotPause])
    ensures Text(CannotPause) == "Cannot pause. Player is stopped."
  {
  }
}
