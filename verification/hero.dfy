/** The hero banner's typewriter: the `typeEffect` step over the index,
    the direction and the deleting flag, and the text it displays. Each
    call is one tick; the 1-second timer that resets the direction is an
    explicit event, and `restoreTimers` counts how many are pending. */
module Hero {

  const Title := "Software Developer"

  /** `s.substring(start, end)`: both ends clamped to [0, |s|], swapped
      when start > end. */
  function Substring(s: string, start: int, end: int): (r: string)
    ensures 0 <= start <= end <= |s| ==> r == s[start..end]
    ensures start <= 0 ==> r == s[..Clamp(end, |s|)]
    ensures |r| <= |s|
  {
    var a := Clamp(start, |s|);
    var b := Clamp(end, |s|);
    if a <= b then s[a..b] else s[b..a]
  }

  /** Reversed bounds give the same text. */
  lemma SubstringSwap(s: string, start: int, end: int)
    ensures Substring(s, start, end) == Substring(s, end, start)
  {
  }

  function Clamp(i: int, n: nat): (r: nat)
    ensures r <= n
    ensures 0 <= i <= n ==> r == i
  {
    if i < 0 then 0 else if i > n then n else i
  }

  datatype Typewriter = Typewriter(index: int, direction: int, isDeleting: bool, restoreTimers: nat)

  function Initial(): Typewriter
  {
    Typewriter(0, 1, false, 0)
  }

  /** What one tick produces: the next state, the text shown and the delay
      before the next tick. */
  datatype Frame = Frame(next: Typewriter, shown: string, delay: nat)

  /** `textContent = currentText || " "`. */
  function Shown(current: string): (r: string)
    ensures r != ""
    ensures current != "" ==> r == current
  {
    if current == "" then " " else current
  }

  function Delay(isDeleting: bool): nat
  {
    if isDeleting then 50 else 150
  }

  /** `typeEffect` as written. While deleting it does `index -= direction`
      with a direction of -1. */
  function TypeEffect(s: Typewriter): (f: Frame)
    ensures f.shown != ""
    ensures f.shown == " " || f.shown <= Title
    ensures f.delay == (if f.next.isDeleting then 50 else 150)
    ensures 0 <= s.index <= |Title| ==> f.shown == Shown(Title[..s.index])
    ensures s.index > |Title| ==> f.shown == Title
    ensures s.index < 0 ==> f.shown == " "
    ensures !s.isDeleting ==> f.next.index == s.index + s.direction
    ensures !s.isDeleting && s.index + s.direction > |Title| ==>
      f.next.direction == -1 && f.next.isDeleting
    ensures !s.isDeleting && s.index + s.direction <= |Title| ==> f.next == s.(index := s.index + s.direction)
    ensures s.isDeleting ==> f.next.index == s.index - s.direction
    ensures s.isDeleting && s.index - s.direction == 0 ==>
      !f.next.isDeleting && f.next.restoreTimers == s.restoreTimers + 1
    ensures s.isDeleting && s.index - s.direction != 0 ==> f.next == s.(index := s.index - s.direction)
  {
    var current := Substring(Title, 0, s.index);
    if s.isDeleting then
      var index := s.index - s.direction;
      var next := if index == 0 then Typewriter(index, s.direction, false, s.restoreTimers + 1)
                  else s.(index := index);
      Frame(next, Shown(current), Delay(next.isDeleting))
    else
      var index := s.index + s.direction;
      var next := if index > |Title| then Typewriter(index, -1, true, s.restoreTimers)
                  else s.(index := index);
      Frame(next, Shown(current), Delay(next.isDeleting))
  }

  /** The pending 1-second timer fires and sets the direction back to 1. */
  function RestoreDirection(s: Typewriter): (r: Typewriter)
    requires s.restoreTimers > 0
    ensures r.direction == 1 && r.restoreTimers == s.restoreTimers - 1
    ensures r.(direction := s.direction, restoreTimers := s.restoreTimers) == s
  {
    s.(direction := 1, restoreTimers := s.restoreTimers - 1)
  }

  datatype Event = Tick | Restore

  function Step(s: Typewriter, e: Event): Typewriter
  {
    match e
    case Tick => TypeEffect(s).next
    case Restore => if s.restoreTimers > 0 then RestoreDirection(s) else s
  }

  function Steps(s: Typewriter, es: seq<Event>): Typewriter
    decreases |es|
  {
    if |es| == 0 then s else Steps(Step(s, es[0]), es[1..])
  }

  /** The states the written code can reach: typing forwards within the
      title, or deleting with the index past the end, and never a pending
      direction reset. */
  predicate Reachable(s: Typewriter)
  {
    && s.restoreTimers == 0
    && (if s.isDeleting then s.direction == -1 && s.index > |Title|
        else s.direction == 1 && 0 <= s.index <= |Title|)
  }

  lemma StepKeepsReachable(s: Typewriter, e: Event)
    requires Reachable(s)
    ensures Reachable(Step(s, e))
  {
  }

  /** From the start, whatever the interleaving of ticks and timer events,
      the `index === 0` branch never runs: no direction reset is ever
      pending, and a deleting typewriter always has its index past the end
      of the title. */
  lemma {:induction false} ResetUnreachable(es: seq<Event>)
    ensures Reachable(Steps(Initial(), es))
  {
    StepsKeepReachable(Initial(), es);
  }

  lemma {:induction false} StepsKeepReachable(s: Typewriter, es: seq<Event>)
    requires Reachable(s)
    ensures Reachable(Steps(s, es))
    decreases |es|
  {
    if |es| > 0 {
      StepKeepsReachable(s, es[0]);
      StepsKeepReachable(Step(s, es[0]), es[1..]);
    }
  }

  function Ticks(s: Typewriter, n: nat): Typewriter
    decreases n
  {
    if n == 0 then s else Ticks(TypeEffect(s).next, n - 1)
  }

  /** As written, the deleting phase never deletes: every later tick keeps
      deleting, the index grows by one per tick, and the full title stays
      on screen. */
  lemma {:induction false} DeletingNeverShrinks(s: Typewriter, n: nat)
    requires Reachable(s) && s.isDeleting
    ensures var t := Ticks(s, n);
      t.isDeleting && t.index == s.index + n && TypeEffect(t).shown == Title
    decreases n
  {
    if n > 0 {
      var f := TypeEffect(s);
      assert f.next.index == s.index + 1;
      DeletingNeverShrinks(f.next, n - 1);
    } else {
      assert Substring(Title, 0, s.index) == Title;
    }
  }

  /** The concrete run: 19 ticks after the start the typewriter is deleting
      with index 19, and it shows the full title from then on. */
  lemma DeletingStartsAtNineteen()
    ensures Ticks(Initial(), 19) == Typewriter(19, -1, true, 0)
  {
    TypingTicks(0, 19);
  }

  lemma {:induction false} TypingTicks(i: nat, n: nat)
    requires i + n == 19 && n > 0
    ensures Ticks(Typewriter(i, 1, false, 0), n) == Typewriter(19, -1, true, 0)
    decreases n
  {
    if n > 1 {
      TypingTicks(i + 1, n - 1);
    }
  }

  /** `typeEffect` with the deleting branch stepping `index += direction`,
      so that the text shrinks. */
  function TypeEffectFixed(s: Typewriter): (f: Frame)
    ensures f.shown != ""
    ensures f.shown == " " || f.shown <= Title
    ensures f.delay == (if f.next.isDeleting then 50 else 150)
    ensures s.isDeleting ==> f.next.index == s.index + s.direction
  {
    if s.isDeleting then
      var current := Substring(Title, 0, s.index);
      var index := s.index + s.direction;
      var next := if index == 0 then Typewriter(index, s.direction, false, s.restoreTimers + 1)
                  else s.(index := index);
      Frame(next, Shown(current), Delay(next.isDeleting))
    else TypeEffect(s)
  }

  function TicksFixed(s: Typewriter, n: nat): Typewriter
    decreases n
  {
    if n == 0 then s else TicksFixed(TypeEffectFixed(s).next, n - 1)
  }

  /** With the fix, a deleting typewriter at index k shows the first k
      characters (clamped), and after k ticks it has reached index 0,
      stopped deleting and scheduled the direction reset. */
  lemma {:induction false} FixedDeletingEnds(s: Typewriter, k: nat)
    requires s.isDeleting && s.direction == -1 && s.index == k && k > 0
    ensures TypeEffectFixed(s).shown == Shown(Title[..Clamp(k, |Title|)])
    ensures var t := TicksFixed(s, k);
      !t.isDeleting && t.index == 0 && t.restoreTimers == s.restoreTimers + 1
    decreases k
  {
    var f := TypeEffectFixed(s);
    if k > 1 {
      FixedDeletingEnds(f.next, k - 1);
    }
  }
}
