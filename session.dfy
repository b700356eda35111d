/**
 * The command side of the presentation controller, as pure functions on a
 * snapshot of the controller's state: the global debounce, the routing of a
 * command by mode, the list selection and the slide cursor.
 *
 * `Controller.PresentationSystem` holds the same state in mutable fields;
 * each of its methods is proved to move its snapshot exactly as the
 * function of the same concept here does.
 */
module Session {
  import opened Wrappers

  /** Minimum distance between two accepted commands, in seconds. */
  const DebounceWindow: real := 1.0

  /** The command tokens the dispatcher recognises. */
  const Up: string := "UP"
  const Down: string := "DOWN"
  const Select: string := "SELECT"

  /** The text of the status bar. */
  datatype Status =
    | FoundPresentations(count: nat)   // "Found N presentations"
    | NoPresentations                  // "No presentations found"
    | Starting(item: nat)              // "Starting: <name of list item>"
    | SlideShown(number: nat, total: nat)  // "Slide k of n" (k counts from 1)
    | LoadError                        // "Error loading presentation: ..."
    | PresentationEnded                // "Presentation ended"

  /**
   * What the external converter does with the selected presentation: it
   * produces `pages` slides, or it raises after having appended
   * `pagesBeforeError` slides to the slide list.
   */
  datatype LoadOutcome = Converted(pages: nat) | ConversionFailed(pagesBeforeError: nat)

  /**
   * A snapshot of the controller's command-side state. The list box is its
   * size and its (single) selection; the converted slides are their number.
   */
  datatype Session = Session(
    lastCommandTime: Option<real>,
    presentationMode: bool,
    listSize: nat,
    selection: Option<nat>,
    currentSlide: nat,
    slideCount: nat,
    status: Status)

  /** The list box selection is an item of the list. */
  predicate SelectionValid(s: Session) {
    s.selection.Some? ==> s.selection.value < s.listSize
  }

  /** While a non-empty presentation is shown, the cursor points at one of its slides. */
  predicate CursorValid(s: Session) {
    s.presentationMode && s.slideCount > 0 ==> s.currentSlide < s.slideCount
  }

  predicate Valid(s: Session) {
    SelectionValid(s) && CursorValid(s)
  }

  /** The state right after start-up, once the presentation directory held `count` files. */
  function Initial(count: nat): (s: Session)
    ensures Valid(s) && !s.presentationMode && s.lastCommandTime.None?
    ensures s.listSize == count && s.selection == (if count > 0 then Some(0) else None)
    ensures s.currentSlide == 0 && s.slideCount == 0
    ensures s.status == if count > 0 then FoundPresentations(count) else NoPresentations
  {
    Session(None, false, count,
            if count > 0 then Some(0) else None,
            0, 0,
            if count > 0 then FoundPresentations(count) else NoPresentations)
  }

  /** The debounce test: no command accepted yet, or the last one at least a window ago. */
  predicate Accepts(last: Option<real>, now: real) {
    !(last.Some? && now - last.value < DebounceWindow)
  }

  /** UP in navigation mode: move the selection one item up, but not above the first item. */
  function SelectionUp(s: Session): (r: Session)
    ensures r == s.(selection := r.selection)
    ensures SelectionValid(s) ==> SelectionValid(r)
    ensures s.selection.None? ==> r.selection.None?
    ensures s.selection.Some? ==>
              r.selection == Some(if s.selection.value == 0 then 0 else s.selection.value - 1)
  {
    if s.selection.Some? && s.selection.value > 0 then s.(selection := Some(s.selection.value - 1))
    else s
  }

  /** DOWN in navigation mode: move the selection one item down, but not below the last item. */
  function SelectionDown(s: Session): (r: Session)
    ensures r == s.(selection := r.selection)
    ensures SelectionValid(s) ==> SelectionValid(r)
    ensures s.selection.None? ==> r.selection.None?
    ensures SelectionValid(s) && s.selection.Some? ==>
              r.selection == Some(if s.selection.value + 1 < s.listSize then s.selection.value + 1
                                  else s.selection.value)
  {
    if s.selection.Some? && s.selection.value < s.listSize - 1 then s.(selection := Some(s.selection.value + 1))
    else s
  }

  /** The status effect of showing the slide under the cursor: nothing is shown outside the slides. */
  function ShowCurrentSlide(s: Session): (r: Session)
    ensures r == s.(status := r.status)
    ensures s.currentSlide < s.slideCount ==> r.status == SlideShown(s.currentSlide + 1, s.slideCount)
    ensures s.currentSlide >= s.slideCount ==> r == s
  {
    if s.currentSlide < s.slideCount then s.(status := SlideShown(s.currentSlide + 1, s.slideCount))
    else s
  }

  /** DOWN in presentation mode: advance the cursor unless it is at the last slide. */
  function NextSlide(s: Session): (r: Session)
    ensures r.currentSlide == if s.currentSlide + 1 < s.slideCount then s.currentSlide + 1 else s.currentSlide
    ensures r == s.(currentSlide := r.currentSlide, status := r.status)
    ensures CursorValid(s) ==> CursorValid(r)
    ensures r.currentSlide == s.currentSlide ==> r == s
    ensures r.currentSlide != s.currentSlide ==> r.status == SlideShown(r.currentSlide + 1, s.slideCount)
  {
    if s.currentSlide < s.slideCount - 1 then ShowCurrentSlide(s.(currentSlide := s.currentSlide + 1))
    else s
  }

  /** UP in presentation mode: step the cursor back unless it is at slide 0. */
  function PreviousSlide(s: Session): (r: Session)
    ensures r.currentSlide == if s.currentSlide > 0 then s.currentSlide - 1 else 0
    ensures r == s.(currentSlide := r.currentSlide, status := r.status)
    ensures CursorValid(s) ==> CursorValid(r)
    ensures s.currentSlide == 0 ==> r == s
    ensures r.currentSlide != s.currentSlide && r.currentSlide < s.slideCount ==>
              r.status == SlideShown(r.currentSlide + 1, s.slideCount)
    ensures r.currentSlide != s.currentSlide && r.currentSlide >= s.slideCount ==>
              r.status == s.status
  {
    if s.currentSlide > 0 then ShowCurrentSlide(s.(currentSlide := s.currentSlide - 1))
    else s
  }

  /** Leave presentation mode and restore the list view; the slides and the cursor stay as they are. */
  function End(s: Session): (r: Session)
    ensures !r.presentationMode && r.status == PresentationEnded
    ensures r == s.(presentationMode := r.presentationMode, status := r.status)
  {
    s.(presentationMode := false, status := PresentationEnded)
  }

  /**
   * The outcome handling of loading a presentation: the slide list is
   * rebuilt; on success the cursor goes to slide 0 only when there is a
   * slide, on failure the error text is shown and the presentation ended.
   */
  function Load(s: Session, outcome: LoadOutcome): (r: Session)
    ensures r.listSize == s.listSize && r.selection == s.selection
    ensures r.lastCommandTime == s.lastCommandTime
    ensures outcome.ConversionFailed? ==>
              && !r.presentationMode && r.status == PresentationEnded
              && r.currentSlide == s.currentSlide && r.slideCount == outcome.pagesBeforeError
    ensures outcome.Converted? ==> r.presentationMode == s.presentationMode && r.slideCount == outcome.pages
    ensures outcome.Converted? && outcome.pages > 0 ==>
              r.currentSlide == 0 && r.status == SlideShown(1, outcome.pages)
    ensures outcome == Converted(0) ==> r == s.(slideCount := 0)
  {
    match outcome
    case Converted(n) =>
      var t := s.(slideCount := n);
      if n > 0 then ShowCurrentSlide(t.(currentSlide := 0)) else t
    case ConversionFailed(p) =>
      End(s.(slideCount := p, status := LoadError))
  }

  /** SELECT in navigation mode: start the selected presentation, if an item is selected. */
  function Start(s: Session, outcome: LoadOutcome): (r: Session)
    ensures s.selection.None? ==> r == s
    ensures r.selection == s.selection && r.listSize == s.listSize && r.lastCommandTime == s.lastCommandTime
    ensures s.selection.Some? ==> (r.presentationMode <==> outcome.Converted?)
    ensures s.selection.Some? && outcome.ConversionFailed? ==>
              r.status == PresentationEnded && r.slideCount == outcome.pagesBeforeError
    ensures s.selection.Some? && outcome.Converted? ==> r.slideCount == outcome.pages
    ensures s.selection.Some? && outcome.Converted? && outcome.pages > 0 ==>
              r.currentSlide == 0 && r.status == SlideShown(1, outcome.pages)
    ensures s.selection.Some? && outcome == Converted(0) ==>
              r.status == Starting(s.selection.value) && r.currentSlide == s.currentSlide
    ensures s.selection.Some? && outcome.ConversionFailed? ==>
              r == s.(presentationMode := false, status := PresentationEnded, slideCount := outcome.pagesBeforeError)
  {
    if s.selection.Some? then
      Load(s.(status := Starting(s.selection.value), presentationMode := true), outcome)
    else
      s
  }

  /** The routing of an accepted command by mode; an unknown command does nothing. */
  function Route(s: Session, command: string, outcome: LoadOutcome): (r: Session)
    ensures r.listSize == s.listSize && r.lastCommandTime == s.lastCommandTime
    ensures command != Up && command != Down && command != Select ==> r == s
  {
    if !s.presentationMode then
      if command == Up then SelectionUp(s)
      else if command == Down then SelectionDown(s)
      else if command == Select then Start(s, outcome)
      else s
    else
      if command == Up then PreviousSlide(s)
      else if command == Down then NextSlide(s)
      else if command == Select then End(s)
      else s
  }

  /**
   * A command arriving at time `now`: dropped by the debounce, or time-stamped
   * and routed. `outcome` is what the converter would do if the command
   * starts a presentation.
   */
  function Dispatch(s: Session, command: string, now: real, outcome: LoadOutcome): (r: Session)
    ensures !Accepts(s.lastCommandTime, now) ==> r == s
    ensures Accepts(s.lastCommandTime, now) ==> r.lastCommandTime == Some(now)
    ensures r.listSize == s.listSize
    ensures Valid(s) ==> Valid(r)
  {
    if !Accepts(s.lastCommandTime, now) then s
    else Route(s.(lastCommandTime := Some(now)), command, outcome)
  }

  /** One command as it reaches the dispatcher. */
  datatype Input = Input(command: string, now: real, outcome: LoadOutcome)

  /** The state after a sequence of commands, handled in order. */
  function Run(s: Session, inputs: seq<Input>): (r: Session)
    decreases |inputs|
  {
    if inputs == [] then s
    else Run(Dispatch(s, inputs[0].command, inputs[0].now, inputs[0].outcome), inputs[1..])
  }

  /** Whatever commands arrive, the selection stays in the list and the cursor on a slide. */
  lemma {:induction false} RunPreservesValid(s: Session, inputs: seq<Input>)
    requires Valid(s)
    ensures Valid(Run(s, inputs))
    ensures Run(s, inputs).listSize == s.listSize
    decreases |inputs|
  {
    if inputs != [] {
      var i := inputs[0];
      RunPreservesValid(Dispatch(s, i.command, i.now, i.outcome), inputs[1..]);
    }
  }

  /**
   * The debounce is global: commands at t, t + 0.5 and t + 1.5, whatever
   * their tokens, are accepted, dropped and accepted.
   */
  lemma DebounceScenario(s: Session, t: real, c1: string, c2: string, c3: string, o: LoadOutcome)
    requires Accepts(s.lastCommandTime, t)
    ensures var s1 := Dispatch(s, c1, t, o);
            var s2 := Dispatch(s1, c2, t + 0.5, o);
            var s3 := Dispatch(s2, c3, t + 1.5, o);
            s1.lastCommandTime == Some(t) && s2 == s1 && s3.lastCommandTime == Some(t + 1.5)
  {
  }

  /** An accepted command that is none of UP, DOWN and SELECT only moves the time stamp. */
  lemma UnknownCommandOnlyStamps(s: Session, command: string, now: real, outcome: LoadOutcome)
    requires Accepts(s.lastCommandTime, now)
    requires command != Up && command != Down && command != Select
    ensures Dispatch(s, command, now, outcome) == s.(lastCommandTime := Some(now))
  {
  }

  /**
   * An accepted command is time-stamped and then routed by mode: UP and DOWN
   * move the selection in navigation mode and the slide cursor in
   * presentation mode; SELECT starts or ends the presentation.
   */
  lemma DispatchRoutes(s: Session, command: string, now: real, o: LoadOutcome)
    requires Accepts(s.lastCommandTime, now)
    ensures var t := s.(lastCommandTime := Some(now));
      var r := Dispatch(s, command, now, o);
      && (!s.presentationMode && command == Up ==> r == SelectionUp(t))
      && (!s.presentationMode && command == Down ==> r == SelectionDown(t))
      && (!s.presentationMode && command == Select ==> r == Start(t, o))
      && (s.presentationMode && command == Up ==> r == PreviousSlide(t))
      && (s.presentationMode && command == Down ==> r == NextSlide(t))
      && (s.presentationMode && command == Select ==> r == End(t))
  {
  }

  /** Five items, item 2 selected: DOWN selects item 3, three more DOWNs stop at item 4. */
  lemma NavigationDownScenario(s: Session, o: LoadOutcome)
    requires Valid(s) && !s.presentationMode && s.listSize == 5 && s.selection == Some(2)
    requires s.lastCommandTime.None?
    ensures var r1 := Run(s, [Input(Down, 0.0, o)]);
            r1.selection == Some(3)
    ensures Run(s, [Input(Down, 0.0, o), Input(Down, 1.0, o), Input(Down, 2.0, o), Input(Down, 3.0, o)]).selection == Some(4)
  {
    var i0, i1, i2, i3 := Input(Down, 0.0, o), Input(Down, 1.0, o), Input(Down, 2.0, o), Input(Down, 3.0, o);
    var s1 := Dispatch(s, Down, 0.0, o);
    var s2 := Dispatch(s1, Down, 1.0, o);
    var s3 := Dispatch(s2, Down, 2.0, o);
    assert s3.selection == Some(4);
    assert [i0, i1, i2, i3][1..] == [i1, i2, i3];
    assert [i1, i2, i3][1..] == [i2, i3];
    assert [i2, i3][1..] == [i3];
    assert Run(s, [i0, i1, i2, i3]) == Run(s1, [i1, i2, i3]);
    assert Run(s1, [i1, i2, i3]) == Run(s2, [i2, i3]);
    assert Run(s2, [i2, i3]) == Run(s3, [i3]);
    assert Run(s3, [i3]) == Dispatch(s3, Down, 3.0, o);
  }

  /** In presentation mode at slide 0 of ten, UP leaves the cursor at 0. */
  lemma PresentingUpAtFirstSlide(s: Session, now: real, o: LoadOutcome)
    requires s.presentationMode && s.slideCount == 10 && s.currentSlide == 0
    requires Accepts(s.lastCommandTime, now)
    ensures Dispatch(s, Up, now, o) == s.(lastCommandTime := Some(now))
  {
  }

  /**
   * SELECT in navigation mode with a selection enters presentation mode for
   * the load; afterwards the mode says whether the load succeeded, and a
   * non-empty presentation opens at slide 0.
   */
  lemma SelectStartsPresentation(s: Session, now: real, o: LoadOutcome)
    requires !s.presentationMode && Accepts(s.lastCommandTime, now)
    ensures var r := Dispatch(s, Select, now, o);
            && (s.selection.None? ==> r == s.(lastCommandTime := Some(now)))
            && (s.selection.Some? ==> (r.presentationMode <==> o.Converted?))
            && (s.selection.Some? && o.ConversionFailed? ==> r.status == PresentationEnded)
            && (s.selection.Some? && o.Converted? ==> r.slideCount == o.pages)
            && (s.selection.Some? && o.Converted? && o.pages > 0 ==> r.currentSlide == 0)
  {
  }

  /** SELECT in presentation mode ends the presentation. */
  lemma SelectEndsPresentation(s: Session, now: real, o: LoadOutcome)
    requires s.presentationMode && Accepts(s.lastCommandTime, now)
    ensures Dispatch(s, Select, now, o) == End(s.(lastCommandTime := Some(now)))
  {
  }

  /** Ending twice is ending once; ending in navigation mode after an end changes nothing. */
  lemma EndIdempotent(s: Session)
    ensures End(End(s)) == End(s)
    ensures !s.presentationMode && s.status == PresentationEnded ==> End(s) == s
  {
  }

  /**
   * After a successful load of zero slides the cursor keeps its old value,
   * and UP in presentation mode still moves it, although there is no slide:
   * the cursor is not confined to an empty presentation.
   */
  lemma StaleCursorAfterEmptyLoad()
    ensures var s := Session(None, false, 1, Some(0), 2, 3, PresentationEnded);
            var started := Dispatch(s, Select, 0.0, Converted(0));
            var r := Dispatch(started, Up, 1.0, Converted(0));
            && started.presentationMode && started.slideCount == 0 && started.currentSlide == 2
            && r.currentSlide == 1
  {
  }
}
