/** What callbacks do, and the history that a dispatch with such callbacks leaves. */
module Transcript {
  import opened TimerHeap
  import opened EventLog

  /** What a callback does: a finite list of these. */
  datatype Call =
    | Feed(w: Watcher, mask: Mask)
    | Clear(w: Watcher)
    | StartTimer(w: Watcher)
    | StopTimer(w: Watcher)
    | Again(w: Watcher)

  /** The entries one call makes. Starting a timer again may clear it a second time, when it stops it. */
  predicate EntriesOf(c: Call, es: seq<Event>) {
    match c
    case Feed(w, mask) => |es| == 1 && es[0].Fed? && es[0].w == w && es[0].mask == mask
    case Clear(w) => es == [Cleared(w)]
    case StartTimer(w) => es == []
    case StopTimer(w) => es == [Cleared(w)]
    case Again(w) => es == [Cleared(w)] || es == [Cleared(w), Cleared(w)]
  }

  /** An invocation, and the entries of the calls its callback made. */
  datatype Turn = Turn(invoked: Event, made: seq<seq<Event>>)

  function Concat(parts: seq<seq<Event>>): seq<Event> {
    if parts == [] then [] else Concat(parts[..|parts| - 1]) + parts[|parts| - 1]
  }

  function Flat(turns: seq<Turn>): seq<Event> {
    if turns == [] then []
    else
      var last := turns[|turns| - 1];
      Flat(turns[..|turns| - 1]) + ([last.invoked] + Concat(last.made))
  }

  ghost predicate Made(calls: seq<Call>, parts: seq<seq<Event>>) {
    |parts| == |calls| && forall i | 0 <= i < |calls| :: EntriesOf(calls[i], parts[i])
  }

  /** The i-th callback makes the i-th list of calls; those after the end of the script make none. */
  function CallsOf(script: seq<seq<Call>>, i: nat): seq<Call> {
    if i < |script| then script[i] else []
  }

  function Left(script: seq<seq<Call>>, n: nat): seq<seq<Call>> {
    if n <= |script| then script[n..] else []
  }

  /** Each turn is one invocation and then exactly what the script has its callback do. */
  ghost predicate Follows(turns: seq<Turn>, script: seq<seq<Call>>) {
    forall i | 0 <= i < |turns| :: turns[i].invoked.Invoked? && Made(CallsOf(script, i), turns[i].made)
  }

  lemma PartAdded(calls: seq<Call>, i: nat, parts: seq<seq<Event>>, es: seq<Event>)
    requires i < |calls| && Made(calls[..i], parts) && EntriesOf(calls[i], es)
    ensures Made(calls[..i + 1], parts + [es]) && Concat(parts + [es]) == Concat(parts) + es
  {
    assert (parts + [es])[..|parts|] == parts;
    assert calls[..i + 1][..i] == calls[..i];
  }

  lemma TurnFollows(script: seq<seq<Call>>, turns: seq<Turn>, turn: Turn)
    requires Follows(turns, script) && turn.invoked.Invoked? && Made(CallsOf(script, |turns|), turn.made)
    ensures Follows(turns + [turn], script)
  {
  }

  lemma FlatMore(turns: seq<Turn>, turn: Turn)
    ensures Flat(turns + [turn]) == Flat(turns) + ([turn.invoked] + Concat(turn.made))
  {
    assert (turns + [turn])[..|turns|] == turns;
  }

  /** The next callback takes the first list of calls that is left. */
  lemma LeftNext(script: seq<seq<Call>>, n: nat)
    ensures CallsOf(script, n) == if Left(script, n) == [] then [] else Left(script, n)[0]
    ensures Left(script, n + 1) == if Left(script, n) == [] then [] else Left(script, n)[1..]
  {
  }

  lemma NoTurns(script: seq<seq<Call>>)
    ensures Follows([], script) && Flat([]) == [] && Left(script, 0) == script
    ensures Made([], []) && Concat([]) == []
  {
  }

  /** What one step of a run makes: plain entries, or turns. */
  datatype Part = Plain(es: seq<Event>) | Turns(turns: seq<Turn>)

  function EntriesIn(part: Part): seq<Event> {
    match part case Plain(es) => es case Turns(turns) => Flat(turns)
  }

  function Whole(parts: seq<Part>): seq<Event> {
    if parts == [] then [] else Whole(parts[..|parts| - 1]) + EntriesIn(parts[|parts| - 1])
  }
}
