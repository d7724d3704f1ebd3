/** The calculate action of the page as a state machine over the four pieces
    of page state it changes: the age result, the trivia, the status and the
    error message. The trivia service is an oracle whose answer is a
    parameter; the wall clock is a parameter too.
 */
module App {
  import opened Calendar
  import Age

  datatype Option<T> = None | Some(value: T)

  datatype Status = Idle | Loading | Success | Error

  /** The trivia record; the page passes it through without looking inside. */
  datatype FunFacts = FunFacts(
    historicalEvents: seq<string>,
    personalityTraits: string,
    famousBirthdays: seq<string>,
    zodiacWisdom: string)

  /** What the trivia service answers: a record (the service's reply parsed
      as JSON; its shape is never checked), or a failure (a network error or
      a reply that is not JSON). */
  datatype TriviaOutcome = Fetched(facts: FunFacts) | Failed

  /** The date field: empty, or a picked date. */
  datatype Input = Empty | Picked(birth: Moment)

  datatype State = State(
    input: Input,
    ageData: Option<Age.AgeResult>,
    funFacts: Option<FunFacts>,
    status: Status,
    error: Option<string>)

  const FutureDateMessage := "Ngày sinh không thể ở trong tương lai!"
  const PartialSuccessMessage :=
    "Đã tính xong tuổi, nhưng không thể tải thêm thông tin thú vị. Vui lòng thử lại."

  /** The page as first rendered. */
  function Initial(): (s: State)
    ensures s.input == Empty && s.status == Idle
    ensures s.ageData == None && s.funFacts == None && s.error == None
  {
    State(Empty, None, None, Idle, None)
  }

  /** Every date the field can hold is a real calendar date. */
  predicate InputValid(i: Input) {
    i.Picked? ==> Valid(i.birth.date)
  }

  /** The date field's change handler. */
  function EditInput(s: State, i: Input): (r: State)
    ensures r.input == i
    ensures r.ageData == s.ageData && r.funFacts == s.funFacts
    ensures r.status == s.status && r.error == s.error
  {
    s.(input := i)
  }

  /** The button is enabled only with a date picked and no calculation in
      flight. */
  predicate CanCalculate(s: State) {
    s.input.Picked? && s.status != Loading
  }

  /** The synchronous part of an accepted calculation, up to the trivia call:
      status LOADING, error cleared, the age stored. */
  function Launch(s: State, birth: Moment, now: Moment): (r: State)
    requires Valid(birth.date) && Valid(now.date)
    ensures r.status == Loading && r.error == None
    ensures r.ageData == Some(Age.ComputeAgeClamped(birth, now))
    ensures Age.DayCount(birth.date, now.date) >= 0 ==> r.ageData == Some(Age.ComputeAge(birth, now))
    ensures r.input == s.input && r.funFacts == s.funFacts
  {
    s.(status := Loading, error := None, ageData := Some(Age.ComputeAgeClamped(birth, now)))
  }

  /** The continuation after the trivia call: on success the trivia is stored
      and the status becomes SUCCESS; on failure the status becomes ERROR
      with the partial-success message. The age is never touched, and failed
      trivia never clears earlier trivia. */
  function Settle(s: State, outcome: TriviaOutcome): (r: State)
    ensures r.input == s.input && r.ageData == s.ageData
    ensures outcome.Fetched? ==> r.funFacts == Some(outcome.facts) && r.status == Success && r.error == s.error
    ensures outcome.Failed? ==> r.funFacts == s.funFacts && r.status == Error && r.error == Some(PartialSuccessMessage)
  {
    match outcome
    case Fetched(facts) => s.(funFacts := Some(facts), status := Success)
    case Failed => s.(status := Error, error := Some(PartialSuccessMessage))
  }

  /** The whole calculate handler, with `now` read from the clock and
      `outcome` the trivia service's answer. */
  function HandleCalculate(s: State, now: Moment, outcome: TriviaOutcome): (r: State)
    requires InputValid(s.input) && Valid(now.date)
    ensures r.input == s.input
    ensures s.input.Empty? ==> r == s
    ensures s.input.Picked? && s.input.birth.ms > now.ms
            ==> && r.error == Some(FutureDateMessage)
                && r.status == s.status && r.ageData == s.ageData && r.funFacts == s.funFacts
    ensures s.input.Picked? && s.input.birth.ms <= now.ms
            ==> && r.ageData == Some(Age.ComputeAgeClamped(s.input.birth, now))
                && (Age.DayCount(s.input.birth.date, now.date) >= 0
                    ==> r.ageData == Some(Age.ComputeAge(s.input.birth, now)))
                && (outcome.Fetched? ==> r.funFacts == Some(outcome.facts) && r.status == Success && r.error == None)
                && (outcome.Failed? ==> r.funFacts == s.funFacts && r.status == Error
                                        && r.error == Some(PartialSuccessMessage))
  {
    match s.input
    case Empty => s
    case Picked(birth) =>
      if birth.ms > now.ms then s.(error := Some(FutureDateMessage))
      else Settle(Launch(s, birth, now), outcome)
  }

  /** A click on the button: ignored while it is disabled. */
  function Click(s: State, now: Moment, outcome: TriviaOutcome): (r: State)
    requires InputValid(s.input) && Valid(now.date)
    ensures !CanCalculate(s) ==> r == s
    ensures CanCalculate(s) ==> r == HandleCalculate(s, now, outcome)
  {
    if CanCalculate(s) then HandleCalculate(s, now, outcome) else s
  }

  /** What every reachable page state satisfies: trivia is only ever shown
      next to an age; SUCCESS has both; ERROR and LOADING have an age; an
      IDLE page has shown nothing; LOADING has no error. */
  predicate Consistent(s: State) {
    && InputValid(s.input)
    && (s.funFacts.Some? ==> s.ageData.Some?)
    && (s.status == Success ==> s.ageData.Some? && s.funFacts.Some?)
    && (s.status == Error ==> s.ageData.Some?)
    && (s.status == Loading ==> s.ageData.Some? && s.error == None)
    && (s.status == Idle ==> s.ageData == None && s.funFacts == None)
  }

  /** The page starts consistent, and every step keeps it so: an edit (also
      while a calculation is in flight), a whole click, the launch of an
      accepted calculation, and the settling of an in-flight one. */
  lemma ConsistentInvariant(s: State, i: Input, birth: Moment, now: Moment, outcome: TriviaOutcome)
    requires Consistent(s) && InputValid(i) && Valid(birth.date) && Valid(now.date)
    ensures Consistent(Initial())
    ensures Consistent(EditInput(s, i))
    ensures Consistent(Click(s, now, outcome))
    ensures Consistent(Launch(s, birth, now))
    ensures s.status == Loading ==> Consistent(Settle(s, outcome))
  {
  }

  /** Without the button's guard the invariant breaks: a future date entered
      while a calculation is in flight would leave LOADING with an error. */
  lemma GuardNeeded(birth: Moment, now: Moment, outcome: TriviaOutcome)
    requires Valid(birth.date) && Valid(now.date) && birth.ms > now.ms
    ensures var s := Launch(EditInput(Initial(), Picked(birth)), birth, now);
            Consistent(s) && !Consistent(HandleCalculate(s, now, outcome))
  {
  }

  /** No re-entry: once a calculation has been launched, clicks do nothing
      until the trivia call settles. */
  lemma NoReentryWhileLoading(s: State, birth: Moment, now: Moment, later: Moment, outcome: TriviaOutcome)
    requires InputValid(s.input) && Valid(birth.date) && Valid(now.date) && Valid(later.date)
    ensures var l := Launch(s, birth, now);
            Click(l, later, outcome) == l
  {
  }

  /** The age shown after an accepted calculation does not depend on the
      trivia outcome. */
  lemma AgeIndependentOfTrivia(s: State, now: Moment, o1: TriviaOutcome, o2: TriviaOutcome)
    requires InputValid(s.input) && Valid(now.date)
    ensures HandleCalculate(s, now, o1).ageData == HandleCalculate(s, now, o2).ageData
  {
  }
}
