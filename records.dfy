/**
 * The data the interview works with: the fixed question bank, the candidate record,
 * and the three operations on the candidate list that the answer and finish steps use
 * (`find` by id, appending an answer, and stamping score and summary with `map`).
 */
module Records {
  import opened Wrappers

  datatype Level = Easy | Medium | Hard

  /** A question with its time limit in seconds. */
  datatype Question = Question(level: Level, time: nat, text: string)

  /** The question bank, asked in this order. */
  const Questions: seq<Question> := [
    Question(Easy, 20, "Explain the difference between let, const, and var in JS."),
    Question(Easy, 20, "What is JSX in React?"),
    Question(Medium, 60, "Explain the lifecycle methods of a React component."),
    Question(Medium, 60, "How does Node.js handle asynchronous operations?"),
    Question(Hard, 120, "Design a REST API for a todo app using Node.js and Express."),
    Question(Hard, 120, "Explain state management strategies in React for large applications.")
  ]

  /**
   * The size of the bank and each question's time limit, as plain numbers: the session's
   * invariant is stated with these so that its proofs need not unfold the question texts.
   */
  const QuestionCount: nat := 6

  function TimeLimit(n: nat): nat
    requires n < QuestionCount
  {
    if n < 2 then 20 else if n < 4 then 60 else 120
  }

  /** The bank has `QuestionCount` questions, and every one of them gets a running timer. */
  lemma BankShape()
    ensures |Questions| == QuestionCount
    ensures forall n | 0 <= n < QuestionCount :: Questions[n].time == TimeLimit(n) && TimeLimit(n) > 0
  {
  }

  /** The summary every finished candidate receives. */
  const Summary: string := "Candidate shows good knowledge in React/Node.js"

  /** A candidate record; `score` and `summary` are absent until the interview finishes. */
  datatype Candidate = Candidate(
    id: string, name: string, email: string, phone: string,
    answers: seq<string>, score: Option<int>, summary: Option<string>)

  /** `Math.floor(Math.random() * 100)` for a draw `rand` of `Math.random()`. */
  function Score(rand: real): (score: int)
    requires 0.0 <= rand < 1.0
    ensures 0 <= score <= 99
  {
    (rand * 100.0).Floor
  }

  /** `candidates.find(c => c.id === id)`, as a position: the first record with that id. */
  function Find(cs: seq<Candidate>, id: string): (r: Option<nat>)
    ensures r.Some? ==> r.value < |cs| && cs[r.value].id == id
    ensures r.Some? ==> forall k | 0 <= k < r.value :: cs[k].id != id
    ensures r.None? ==> forall k | 0 <= k < |cs| :: cs[k].id != id
  {
    if cs == [] then None
    else if cs[0].id == id then Some(0)
    else
      match Find(cs[1..], id)
      case None => None
      case Some(k) => Some(k + 1)
  }

  /** The answers recorded for `id` so far (none without a record). */
  function AnswersOf(cs: seq<Candidate>, id: string): seq<string> {
    match Find(cs, id)
    case None => []
    case Some(k) => cs[k].answers
  }

  /** At most one record carries `id`. */
  predicate Unique(cs: seq<Candidate>, id: string) {
    forall a, b | 0 <= a < b < |cs| :: !(cs[a].id == id && cs[b].id == id)
  }

  /**
   * The answer-saving step: push the answer onto the record found for `id`, or add a new
   * record for `id` holding just this answer and the identity fields given.
   */
  function RecordAnswer(cs: seq<Candidate>, id: string, name: string, email: string, phone: string,
                        answer: string): seq<Candidate>
  {
    match Find(cs, id)
    case None => cs + [Candidate(id, name, email, phone, [answer], None, None)]
    case Some(k) => cs[k := cs[k].(answers := cs[k].answers + [answer])]
  }

  /**
   * Recording appends exactly one answer to the session's record, creates the record with
   * the identity fields when there was none, keeps it unique, and touches no other record.
   */
  lemma RecordAnswerSpec(cs: seq<Candidate>, id: string, name: string, email: string, phone: string,
                         answer: string)
    requires Unique(cs, id)
    ensures var r := RecordAnswer(cs, id, name, email, phone, answer);
      && AnswersOf(r, id) == AnswersOf(cs, id) + [answer]
      && Find(r, id).Some?
      && Unique(r, id)
      && |r| == |cs| + (if Find(cs, id).None? then 1 else 0)
      && (Find(cs, id).None? ==> r[|cs|] == Candidate(id, name, email, phone, [answer], None, None))
      && (forall k | 0 <= k < |cs| && cs[k].id != id :: r[k] == cs[k])
      && (forall k | 0 <= k < |cs| && cs[k].id == id ::
            r[k] == cs[k].(answers := cs[k].answers + [answer]))
  {
    var r := RecordAnswer(cs, id, name, email, phone, answer);
    match Find(cs, id)
    case None =>
      FindAfter(cs, [Candidate(id, name, email, phone, [answer], None, None)], id);
    case Some(k) =>
      FindSame(cs, r, id);
  }

  /** Appending to a list where `id` is absent: `find` returns the first appended record with `id`. */
  lemma FindAfter(cs: seq<Candidate>, tail: seq<Candidate>, id: string)
    requires Find(cs, id).None? && |tail| > 0 && tail[0].id == id
    ensures Find(cs + tail, id) == Some(|cs|)
    decreases |cs|
  {
    if cs != [] {
      assert (cs + tail)[1..] == cs[1..] + tail;
      FindAfter(cs[1..], tail, id);
    }
  }

  /** `find` depends only on which positions carry the id. */
  lemma FindSame(cs: seq<Candidate>, ds: seq<Candidate>, id: string)
    requires |cs| == |ds| && forall k | 0 <= k < |cs| :: (cs[k].id == id <==> ds[k].id == id)
    ensures Find(cs, id) == Find(ds, id)
    decreases |cs|
  {
    if cs != [] && cs[0].id != id {
      FindSame(cs[1..], ds[1..], id);
    }
  }

  /**
   * `finishInterview`'s `map`: every record with `id` gets the score and the summary;
   * every other record is kept as it is.
   */
  function Stamp(cs: seq<Candidate>, id: string, score: int): (r: seq<Candidate>)
    ensures |r| == |cs|
    ensures forall k | 0 <= k < |cs| :: r[k].id == cs[k].id && r[k].answers == cs[k].answers
    ensures forall k | 0 <= k < |cs| && cs[k].id != id :: r[k] == cs[k]
    ensures forall k | 0 <= k < |cs| && cs[k].id == id ::
      r[k].score == Some(score) && r[k].summary == Some(Summary)
      && r[k].name == cs[k].name && r[k].email == cs[k].email && r[k].phone == cs[k].phone
  {
    if cs == [] then []
    else
      var c := if cs[0].id == id then cs[0].(score := Some(score), summary := Some(Summary)) else cs[0];
      [c] + Stamp(cs[1..], id, score)
  }

  /** Stamping leaves every record's answers, and so the session's answers, as they were. */
  lemma StampKeepsAnswers(cs: seq<Candidate>, id: string, score: int)
    ensures Find(Stamp(cs, id, score), id) == Find(cs, id)
    ensures AnswersOf(Stamp(cs, id, score), id) == AnswersOf(cs, id)
    ensures Unique(cs, id) ==> Unique(Stamp(cs, id, score), id)
  {
    FindSame(cs, Stamp(cs, id, score), id);
  }
}
