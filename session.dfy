/**
 * The interview session of the React component, without its rendering: each piece of
 * session state is a field of `Session` (the resume data split into its four parts; the
 * chat input and the tab choice belong to the rendering and are left out), each handler
 * or effect a method that updates the fields in
 * place, run to completion one after another. The constructor and the entry points
 * (`SendMessage`, `NextQuestion`, `Tick`, `UploadResume`) are proved to perform the
 * corresponding step of `Flow` on the snapshot of its fields and to keep `Valid`; the
 * helpers they call are proved to perform their own step.
 */
module Interview {
  import opened Wrappers
  import opened Chars
  import opened Validation
  import opened Resume
  import opened Records
  import opened Flow

  class Session {
    /** The random session id, drawn once when the component mounts. */
    const sessionId: string
    var name: string
    var email: string
    var phone: string
    var fullText: string
    /** Number of questions asked so far; QuestionCount + 1 once the interview has finished. */
    var currentQuestionIndex: nat
    /** Seconds left for the current question. */
    var timer: nat
    var messages: seq<Message>
    var candidates: seq<Candidate>
    /** The last list written to the durable store under "candidates" (None before the first write). */
    ghost var persisted: Option<seq<Candidate>>

    /** The component's state as a value. */
    function Snapshot(): State
      reads this
    {
      State(name, email, phone, fullText, currentQuestionIndex, timer, messages, candidates)
    }

    /** The flow's invariant, and the durable store holds the list once anything was saved. */
    ghost predicate Valid()
      reads this
    {
      && Inv(Snapshot(), sessionId)
      && (persisted.Some? ==> persisted.value == candidates)
      && (candidates != [] ==> persisted.Some?)
    }

    /** The component mounting: empty state, then the prompt effect asks for the name. */
    constructor (id: string)
      ensures Valid()
      ensures sessionId == id && Snapshot() == Mount() && persisted == None
    {
      sessionId := id;
      name, email, phone, fullText := "", "", "", "";
      currentQuestionIndex, timer := 0, 0;
      candidates := [];
      persisted := None;
      messages := [Message(AI, NamePrompt)];
      new;
      MountInv(id);
    }

    /**
     * The prompt effect, run whenever the identity fields are replaced: `askCandidate`
     * replaces the transcript with a request for the first missing field.
     */
    method Prompt()
      requires messages != []
      modifies this`messages
      ensures Snapshot() == Prompted(old(Snapshot()))
    {
      if name == "" {
        messages := [Message(AI, NamePrompt)];
      } else if !ValidateEmail(email) {
        messages := [Message(AI, EmailPrompt)];
      } else if !ValidatePhone(phone) {
        messages := [Message(AI, PhonePrompt)];
      } else if currentQuestionIndex == 0 && messages == [] {
        // The delayed automatic start of the first question needs an empty transcript,
        // which never occurs after the mount-time prompt; the first question is started
        // by the timer effect (Tick) instead.
        assert false;
      }
    }

    /** The missing-fields branch of `handleSendMessage`, after the input joined the transcript. */
    method CollectField(input: string)
      requires messages != []
      modifies this`name, this`email, this`phone, this`messages
      ensures Snapshot() == Collect(old(Snapshot()), input)
    {
      if name == "" {
        name := input;
        Prompt();
      } else if !ValidateEmail(email) {
        if !ValidateEmail(input) {
          return;
        }
        email := input;
        Prompt();
      } else if !ValidatePhone(phone) {
        if !ValidatePhone(input) {
          return;
        }
        phone := input;
        Prompt();
      }
    }

    /**
     * The answer-saving half of `handleNextQuestion`: push the answer onto the session's
     * record (creating it with the identity fields if absent) and store the list.
     */
    method SaveAnswer(answer: string)
      modifies this`candidates, this`persisted
      ensures candidates == RecordAnswer(old(candidates), sessionId, name, email, phone, answer)
      ensures persisted == Some(candidates)
    {
      var found := Find(candidates, sessionId);
      if found.None? {
        candidates := candidates + [Candidate(sessionId, name, email, phone, [answer], None, None)];
      } else {
        var k := found.value;
        candidates := candidates[k := candidates[k].(answers := candidates[k].answers + [answer])];
      }
      persisted := Some(candidates);
    }

    /**
     * `finishInterview`: score and summarise the session's record, store the list,
     * announce the end, stop the timer and move past the last question.
     */
    method Finish(rand: real)
      requires 0.0 <= rand < 1.0
      modifies this`candidates, this`persisted, this`messages, this`timer, this`currentQuestionIndex
      ensures Snapshot() == Finished(old(Snapshot()), sessionId, rand)
      ensures persisted == Some(candidates)
    {
      candidates := Stamp(candidates, sessionId, Score(rand));
      persisted := Some(candidates);
      messages := messages + [Message(AI, FinishedText)];
      timer := 0;
      currentQuestionIndex := QuestionCount + 1;
    }

    /** `handleNextQuestion(answer)`; `rand` is the draw of `Math.random()` used if it finishes. */
    method NextQuestion(answer: string, rand: real)
      requires Valid() && 0.0 <= rand < 1.0
      modifies this
      ensures Valid()
      ensures Snapshot() == Advance(old(Snapshot()), sessionId, answer, rand)
    {
      AdvanceKeepsInv(Snapshot(), sessionId, answer, rand);
      BankShape();
      ghost var before := Snapshot();
      if currentQuestionIndex > 0 {
        SaveAnswer(answer);
      }
      assert Snapshot() == before.(candidates := Saved(before, sessionId, answer));
      if currentQuestionIndex < QuestionCount {
        var q := Questions[currentQuestionIndex];
        messages := messages + [Message(AI, q.text)];
        timer := q.time;
        currentQuestionIndex := currentQuestionIndex + 1;
      } else {
        Finish(rand);
      }
    }

    /**
     * `handleSendMessage(input)`: blank input is ignored; otherwise the input joins the
     * transcript and fills the first missing field, or, once all fields are valid, is
     * submitted as the answer to the current question.
     */
    method SendMessage(input: string, rand: real)
      requires Valid() && 0.0 <= rand < 1.0
      modifies this
      ensures Valid()
      ensures Snapshot() == Send(old(Snapshot()), sessionId, input, rand)
      ensures IsBlank(input) ==> unchanged(this)
    {
      if IsBlank(input) {
        return;
      }
      SendKeepsInv(Snapshot(), sessionId, input, rand);
      var stage := Snapshot().CurrentStage();
      ghost var before := Snapshot();
      messages := messages + [Message(You, input)];
      assert Snapshot() == before.(messages := before.messages + [Message(You, input)]);
      if stage != Ready {
        CollectField(input);
      } else {
        NextQuestion(input, rand);
      }
    }

    /**
     * One run of the timer effect: while the fields are valid and the interview has not
     * finished, a running timer loses one second and an expired one submits an empty answer.
     */
    method Tick(rand: real)
      requires Valid() && 0.0 <= rand < 1.0
      modifies this
      ensures Valid()
      ensures Snapshot() == TickStep(old(Snapshot()), sessionId, rand)
      ensures !old(Snapshot()).Active() ==> unchanged(this)
    {
      var active := currentQuestionIndex <= QuestionCount && name != ""
                    && ValidateEmail(email) && ValidatePhone(phone);
      if active && timer > 0 {
        timer := timer - 1;
      } else if active && timer == 0 {
        NextQuestion("", rand);
      }
    }

    /** The state update of `handleResumeUpload`: the resume data is replaced and the prompt effect runs. */
    method TakeFields(fields: Fields, text: string)
      requires messages != []
      modifies this`name, this`email, this`phone, this`fullText, this`messages
      ensures Snapshot() == Took(old(Snapshot()), fields, text)
    {
      name, email, phone, fullText := fields.name, fields.email, fields.phone, text;
      Prompt();
    }

    /**
     * `handleResumeUpload` with the document's text already extracted: a file that is not
     * a PDF is declined with nothing changed; otherwise all three identity fields are
     * replaced by what the searches find (empty when nothing matches) and the prompt
     * effect runs.
     */
    method UploadResume(fileName: string, text: string)
      requires Valid()
      modifies this`name, this`email, this`phone, this`fullText, this`messages
      ensures Valid()
      ensures Snapshot() == Upload(old(Snapshot()), fileName, text)
      ensures !IsPdf(fileName) ==> unchanged(this)
    {
      UploadKeepsInv(Snapshot(), sessionId, fileName, text);
      if !IsPdf(fileName) {
        return;
      }
      TakeFields(Extract(text), text);
    }
  }
}
