/**
 * The interview flow of the React component as a state machine on values: the state is
 * what the component's state hooks hold, and each handler or effect, run to completion,
 * is a function from state to state. The class in `Interview` performs the same steps in
 * place and is proved against these functions; the properties of the flow are proved
 * here, once, about the functions.
 */
module Flow {
  import opened Wrappers
  import opened Chars
  import opened Validation
  import opened Resume
  import opened Records

  datatype Sender = AI | You

  /** A transcript entry. */
  datatype Message = Message(sender: Sender, text: string)

  const NamePrompt: string := "Please enter your full name:"
  const EmailPrompt: string := "Please enter a valid Gmail address:"
  const PhonePrompt: string := "Please enter your 10-digit phone number:"
  const FinishedText: string := "\U{2705} Interview finished!"

  /** Which identity field the session still asks for, tested in the component's order. */
  datatype Stage = AskName | AskEmail | AskPhone | Ready

  function StageOf(name: string, email: string, phone: string): (st: Stage)
    ensures st == Ready <==> name != "" && ValidateEmail(email) && ValidatePhone(phone)
    ensures st == AskName <==> name == ""
    ensures st == AskEmail <==> name != "" && !ValidateEmail(email)
    ensures st == AskPhone <==> name != "" && ValidateEmail(email) && !ValidatePhone(phone)
  {
    if name == "" then AskName
    else if !ValidateEmail(email) then AskEmail
    else if !ValidatePhone(phone) then AskPhone
    else Ready
  }

  function PromptFor(st: Stage): string
    requires st != Ready
  {
    match st
    case AskName => NamePrompt
    case AskEmail => EmailPrompt
    case AskPhone => PhonePrompt
  }

  /**
   * The component's state: the resume data, the question counter (the number of questions
   * asked; `QuestionCount + 1` once finished), the seconds left, the transcript and the
   * candidate list.
   */
  datatype State = State(
    name: string, email: string, phone: string, fullText: string,
    index: nat, timer: nat, messages: seq<Message>, candidates: seq<Candidate>)
  {
    function CurrentStage(): Stage {
      StageOf(name, email, phone)
    }

    /** The condition under which the timer effect acts: fields valid, interview not finished. */
    predicate Active() {
      CurrentStage() == Ready && index <= QuestionCount
    }
  }

  /** The prompt effect: `askCandidate` replaces the transcript with a request for the first missing field. */
  function Prompted(s: State): State {
    if s.CurrentStage() == Ready then s
    else s.(messages := [Message(AI, PromptFor(s.CurrentStage()))])
  }

  /** The component just mounted: empty state, and the prompt effect has asked for the name. */
  function Mount(): State {
    Prompted(State("", "", "", "", 0, 0, [], []))
  }

  /**
   * The field-collection branch of `handleSendMessage`, after the input joined the transcript:
   * the first missing field takes the input (email and phone only when valid), and an
   * accepted input makes the prompt effect run.
   */
  function Collect(s: State, input: string): State {
    if s.name == "" then Prompted(s.(name := input))
    else if !ValidateEmail(s.email) then
      if ValidateEmail(input) then Prompted(s.(email := input)) else s
    else if !ValidatePhone(s.phone) then
      if ValidatePhone(input) then Prompted(s.(phone := input)) else s
    else s
  }

  /** The answer-saving half of `handleNextQuestion`: from the first question on, record the answer. */
  function Saved(s: State, id: string, answer: string): seq<Candidate> {
    if s.index > 0 then RecordAnswer(s.candidates, id, s.name, s.email, s.phone, answer)
    else s.candidates
  }

  /** `finishInterview`, with `rand` the draw of `Math.random()`. */
  function Finished(s: State, id: string, rand: real): State
    requires 0.0 <= rand < 1.0
  {
    s.(candidates := Stamp(s.candidates, id, Score(rand)),
       messages := s.messages + [Message(AI, FinishedText)],
       timer := 0, index := QuestionCount + 1)
  }

  /** `handleNextQuestion(answer)`: save the answer, then ask the next question or finish. */
  function Advance(s: State, id: string, answer: string, rand: real): State
    requires 0.0 <= rand < 1.0
  {
    BankShape();
    var t := s.(candidates := Saved(s, id, answer));
    if s.index < QuestionCount then
      var q := Questions[s.index];
      t.(messages := t.messages + [Message(AI, q.text)], timer := q.time, index := s.index + 1)
    else
      Finished(t, id, rand)
  }

  /**
   * `handleSendMessage(input)`: blank input is ignored; otherwise the input joins the
   * transcript and either fills a missing field or answers the current question.
   */
  function Send(s: State, id: string, input: string, rand: real): State
    requires 0.0 <= rand < 1.0
  {
    if IsBlank(input) then s
    else
      var t := s.(messages := s.messages + [Message(You, input)]);
      if s.CurrentStage() != Ready then Collect(t, input) else Advance(t, id, input, rand)
  }

  /** One run of the timer effect: a running timer loses a second, an expired one submits "". */
  function TickStep(s: State, id: string, rand: real): State
    requires 0.0 <= rand < 1.0
  {
    if s.Active() && s.timer > 0 then s.(timer := s.timer - 1)
    else if s.Active() && s.timer == 0 then Advance(s, id, "", rand)
    else s
  }

  /** The state update of `handleResumeUpload`: the resume data is replaced, then the prompt effect runs. */
  function Took(s: State, f: Fields, text: string): State {
    Prompted(s.(name := f.name, email := f.email, phone := f.phone, fullText := text))
  }

  /**
   * `handleResumeUpload` for a file with that name whose document text is `text`: only a
   * PDF is read; all three identity fields are replaced by what the searches find.
   */
  function Upload(s: State, fileName: string, text: string): State {
    if !IsPdf(fileName) then s else Took(s, Extract(text), text)
  }

  /** The answers recorded for the session `id`. */
  function SessionAnswers(s: State, id: string): seq<string> {
    AnswersOf(s.candidates, id)
  }

  /**
   * What holds between steps: the transcript is never empty, a running timer belongs to
   * an asked question and never exceeds its limit, the session has at most one record,
   * created with the second question, and holding one answer per question answered.
   */
  predicate Inv(s: State, id: string) {
    && s.messages != []
    && s.index <= QuestionCount + 1
    && (s.timer > 0 ==> 1 <= s.index <= QuestionCount && s.timer <= TimeLimit(s.index - 1))
    && Unique(s.candidates, id)
    && (Find(s.candidates, id).Some? <==> s.index >= 2)
    && (s.index <= QuestionCount ==>
          |SessionAnswers(s, id)| == if s.index == 0 then 0 else s.index - 1)
    && (s.index == QuestionCount + 1 ==> |SessionAnswers(s, id)| >= QuestionCount)
  }

  lemma MountInv(id: string)
    ensures Inv(Mount(), id)
    ensures Mount() == State("", "", "", "", 0, 0, [Message(AI, NamePrompt)], [])
  {
  }

  /**
   * Asking a question: its text is appended, its timer starts at its (positive) limit, the
   * counter moves on, and the answer to the previous question (if any) is recorded; other
   * records are untouched, and before the first question the list is not touched at all.
   */
  lemma AdvanceAsks(s: State, id: string, answer: string, rand: real)
    requires Inv(s, id) && 0.0 <= rand < 1.0 && s.index < QuestionCount
    ensures var r := Advance(s, id, answer, rand);
      && r.messages == s.messages + [Message(AI, Questions[s.index].text)]
      && r.timer == TimeLimit(s.index) && r.timer > 0
      && r.index == s.index + 1
      && SessionAnswers(r, id) == (if s.index > 0 then SessionAnswers(s, id) + [answer] else [])
      && |SessionAnswers(r, id)| == r.index - 1
      && Unique(r.candidates, id) && (Find(r.candidates, id).Some? <==> r.index >= 2)
      && r.name == s.name && r.email == s.email && r.phone == s.phone && r.fullText == s.fullText
      && (s.index == 0 ==> r.candidates == s.candidates)
      && (forall j | 0 <= j < |s.candidates| && s.candidates[j].id != id ::
            j < |r.candidates| && r.candidates[j] == s.candidates[j])
  {
    BankShape();
    if s.index > 0 {
      RecordAnswerSpec(s.candidates, id, s.name, s.email, s.phone, answer);
    }
  }

  /**
   * Finishing (on the answer to the last question, or on any later one): the answer is
   * recorded, the session's record alone is scored in [0, 99] and summarised, the timer
   * stops and the counter moves past the last question.
   */
  lemma AdvanceFinishes(s: State, id: string, answer: string, rand: real)
    requires Inv(s, id) && 0.0 <= rand < 1.0 && s.index >= QuestionCount
    ensures var r := Advance(s, id, answer, rand);
      && r.messages == s.messages + [Message(AI, FinishedText)]
      && r.timer == 0 && r.index == QuestionCount + 1
      && SessionAnswers(r, id) == SessionAnswers(s, id) + [answer]
      && (s.index == QuestionCount ==> |SessionAnswers(r, id)| == QuestionCount)
      && |r.candidates| == |s.candidates|
      && Unique(r.candidates, id) && Find(r.candidates, id) == Find(s.candidates, id)
      && var k := Find(s.candidates, id).value;
         && r.candidates[k].score == Some(Score(rand)) && 0 <= Score(rand) <= 99
         && r.candidates[k].summary == Some(Summary)
         && (forall j | 0 <= j < |s.candidates| && j != k :: r.candidates[j] == s.candidates[j])
  {
    var cs := RecordAnswer(s.candidates, id, s.name, s.email, s.phone, answer);
    RecordAnswerSpec(s.candidates, id, s.name, s.email, s.phone, answer);
    StampKeepsAnswers(cs, id, Score(rand));
    var k := Find(s.candidates, id).value;
    forall j | 0 <= j < |s.candidates| && j != k
      ensures Advance(s, id, answer, rand).candidates[j] == s.candidates[j]
    {
      assert s.candidates[j].id != id;
    }
  }

  /** `handleNextQuestion` keeps the invariant and only appends to the session's answers. */
  lemma AdvanceKeepsInv(s: State, id: string, answer: string, rand: real)
    requires Inv(s, id) && 0.0 <= rand < 1.0
    ensures Inv(Advance(s, id, answer, rand), id)
    ensures SessionAnswers(s, id) <= SessionAnswers(Advance(s, id, answer, rand), id)
  {
    if s.index < QuestionCount {
      AdvanceAsks(s, id, answer, rand);
    } else {
      AdvanceFinishes(s, id, answer, rand);
    }
  }

  /**
   * Sending, field by field: blank input changes nothing; the name is taken first, then a
   * valid email, then a valid phone; a rejected input still joins the transcript and
   * changes nothing else; an accepted one has the transcript replaced by the next prompt.
   */
  lemma SendCollects(s: State, id: string, input: string, rand: real)
    requires 0.0 <= rand < 1.0 && s.CurrentStage() != Ready
    ensures IsBlank(input) ==> Send(s, id, input, rand) == s
    ensures var r := Send(s, id, input, rand);
      var st := s.CurrentStage();
      var accepted := st == AskName || (st == AskEmail && ValidateEmail(input))
                      || (st == AskPhone && ValidatePhone(input));
      !IsBlank(input) ==>
        && r.name == (if st == AskName then input else s.name)
        && r.email == (if st == AskEmail && accepted then input else s.email)
        && r.phone == (if st == AskPhone && accepted then input else s.phone)
        && r.fullText == s.fullText && r.index == s.index && r.timer == s.timer
        && r.candidates == s.candidates
        && (accepted && r.CurrentStage() != Ready ==> r.messages == [Message(AI, PromptFor(r.CurrentStage()))])
        && (accepted && r.CurrentStage() == Ready ==> r.messages == s.messages + [Message(You, input)])
        && (!accepted ==> r.messages == s.messages + [Message(You, input)])
  {
  }

  /**
   * A PDF upload installs the three extracted fields and the document text; the session is
   * ready for questions exactly when all three were found, and otherwise the transcript is
   * replaced by the prompt for the first one missing.
   */
  lemma UploadFills(s: State, fileName: string, text: string)
    requires IsPdf(fileName)
    ensures var r := Upload(s, fileName, text);
      var f := Extract(text);
      && r.name == f.name && r.email == f.email && r.phone == f.phone && r.fullText == text
      && (r.CurrentStage() == Ready <==> f.name != "" && f.email != "" && f.phone != "")
      && (r.CurrentStage() == Ready ==> r.messages == s.messages)
      && (r.CurrentStage() != Ready ==> r.messages == [Message(AI, PromptFor(r.CurrentStage()))])
      && r.index == s.index && r.timer == s.timer && r.candidates == s.candidates
  {
  }

  /**
   * A submission after the interview finished is still recorded and finishes the interview
   * again, with a new score.
   */
  lemma LateSubmission(s: State, id: string, input: string, rand: real)
    requires Inv(s, id) && 0.0 <= rand < 1.0
    requires s.CurrentStage() == Ready && s.index == QuestionCount + 1 && !IsBlank(input)
    ensures var r := Send(s, id, input, rand);
      && r.index == QuestionCount + 1 && r.timer == 0
      && r.messages == s.messages + [Message(You, input), Message(AI, FinishedText)]
      && SessionAnswers(r, id) == SessionAnswers(s, id) + [input]
      && r.candidates[Find(r.candidates, id).value].score == Some(Score(rand))
  {
    var t := s.(messages := s.messages + [Message(You, input)]);
    assert Send(s, id, input, rand) == Advance(t, id, input, rand);
    AdvanceFinishes(t, id, input, rand);
  }

  /**
   * The timer effect: idle unless active (in particular once finished); a running timer
   * loses exactly one second and nothing else changes; an expired one submits "".
   */
  lemma TickMeaning(s: State, id: string, rand: real)
    requires Inv(s, id) && 0.0 <= rand < 1.0
    ensures s.index == QuestionCount + 1 ==> TickStep(s, id, rand) == s
    ensures !s.Active() ==> TickStep(s, id, rand) == s
    ensures s.Active() && s.timer > 0 ==>
      TickStep(s, id, rand).timer == s.timer - 1 && TickStep(s, id, rand).(timer := s.timer) == s
    ensures s.Active() && s.timer == 0 ==> TickStep(s, id, rand) == Advance(s, id, "", rand)
  {
  }

  /** The events the component reacts to, each with the draw of `Math.random()` it may use. */
  datatype Event = Typed(input: string, draw: real) | TimerEffect(draw: real) | Uploaded(fileName: string, text: string)

  predicate Draws(events: seq<Event>) {
    forall n | 0 <= n < |events| :: events[n].Uploaded? || 0.0 <= events[n].draw < 1.0
  }

  function Apply(s: State, id: string, e: Event): State
    requires e.Uploaded? || 0.0 <= e.draw < 1.0
  {
    match e
    case Typed(input, draw) => Send(s, id, input, draw)
    case TimerEffect(draw) => TickStep(s, id, draw)
    case Uploaded(fileName, text) => Upload(s, fileName, text)
  }

  /** The state after the events, one handler or effect run after another. */
  function Run(s: State, id: string, events: seq<Event>): State
    requires Draws(events)
    decreases |events|
  {
    if events == [] then s else Run(Apply(s, id, events[0]), id, events[1..])
  }

  /** A step that leaves the counter, the timer and the candidate list alone keeps the invariant. */
  lemma SameProgress(s: State, r: State, id: string)
    requires Inv(s, id) && r.messages != []
    requires r.index == s.index && r.timer == s.timer && r.candidates == s.candidates
    ensures Inv(r, id)
    ensures SessionAnswers(r, id) == SessionAnswers(s, id)
  {
  }

  lemma SendKeepsInv(s: State, id: string, input: string, rand: real)
    requires Inv(s, id) && 0.0 <= rand < 1.0
    ensures Inv(Send(s, id, input, rand), id)
    ensures SessionAnswers(s, id) <= SessionAnswers(Send(s, id, input, rand), id)
  {
    if IsBlank(input) {
    } else if s.CurrentStage() != Ready {
      SendCollects(s, id, input, rand);
      SameProgress(s, Send(s, id, input, rand), id);
    } else {
      AdvanceKeepsInv(s.(messages := s.messages + [Message(You, input)]), id, input, rand);
    }
  }

  lemma UploadKeepsInv(s: State, id: string, fileName: string, text: string)
    requires Inv(s, id)
    ensures Inv(Upload(s, fileName, text), id)
    ensures SessionAnswers(Upload(s, fileName, text), id) == SessionAnswers(s, id)
  {
    if IsPdf(fileName) {
      SameProgress(s, Took(s, Extract(text), text), id);
    }
  }

  lemma TickKeepsInv(s: State, id: string, rand: real)
    requires Inv(s, id) && 0.0 <= rand < 1.0
    ensures Inv(TickStep(s, id, rand), id)
    ensures SessionAnswers(s, id) <= SessionAnswers(TickStep(s, id, rand), id)
  {
    if s.Active() && s.timer == 0 {
      AdvanceKeepsInv(s, id, "", rand);
    }
  }

  /** Every step keeps the invariant; the session's answers are only ever appended to. */
  lemma ApplyKeepsInv(s: State, id: string, e: Event)
    requires Inv(s, id) && (e.Uploaded? || 0.0 <= e.draw < 1.0)
    ensures Inv(Apply(s, id, e), id)
    ensures SessionAnswers(s, id) <= SessionAnswers(Apply(s, id, e), id)
  {
    match e
    case Typed(input, draw) => SendKeepsInv(s, id, input, draw);
    case TimerEffect(draw) => TickKeepsInv(s, id, draw);
    case Uploaded(fileName, text) => UploadKeepsInv(s, id, fileName, text);
  }

  /** From any state satisfying the invariant, every run keeps it and only appends answers. */
  lemma {:induction false} RunKeepsInv(s: State, id: string, events: seq<Event>)
    requires Inv(s, id) && Draws(events)
    ensures Inv(Run(s, id, events), id)
    ensures SessionAnswers(s, id) <= SessionAnswers(Run(s, id, events), id)
    decreases |events|
  {
    if events != [] {
      ApplyKeepsInv(s, id, events[0]);
      RunKeepsInv(Apply(s, id, events[0]), id, events[1..]);
    }
  }
}
