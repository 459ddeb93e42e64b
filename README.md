# AI interview session engine, modelled in Dafny

This project models the interview session of the `ai-interview` React application
(`ai-interview/src/App.tsx`). Rendering is left out. The session:

- collects the candidate's name, Gmail address and 10-digit phone number, either from an
  uploaded PDF resume or typed into the chat;
- asks six fixed questions, each with a countdown, and submits an empty answer when the time
  runs out;
- finishes by scoring and summarising the candidate's record, which is also written to the
  browser's durable store.

Modules, one per file:

- `Wrappers` (`wrappers.dfy`): an `Option` type.
- `Chars` (`chars.dfy`): the character classes the regular expressions use, JavaScript's
  whitespace set, `trim` and ASCII lower-casing.
- `Validation` (`validation.dfy`): `validateEmail` and `validatePhone`, each characterised by
  a lemma.
- `Resume` (`resume.dfy`): the file-extension test of the upload handler, and the three
  regular-expression searches that pre-fill the fields. Each search is specified as
  JavaScript finds it: the leftmost match, taken greedily, backtracking where the pattern
  requires.
- `Records` (`records.dfy`): the question bank, the candidate record, and the list
  operations the session performs. These are `find` by id, pushing an answer, and stamping
  score and summary with `map`.
- `Flow` (`flow.dfy`): the session as a state machine on values. `State` holds the
  component's session state. Each handler or effect, run to completion, is a function
  on states: `Send`, `TickStep`, `Upload`, `Advance`, `Finished`, `Prompted`. `Inv` is the
  invariant the session keeps. `Run` applies a sequence of events, and `RunKeepsInv` proves
  that every run keeps the invariant and only ever appends answers.
- `Interview` (`session.dfy`): the class `Session`. It has one field per piece of session
  state (the resume data split into its four parts), and its methods update those fields in place as the handlers do. `Valid()` is `Inv` plus the
  link to the durable store, which is a ghost field.
  - The constructor and the four entry points (`SendMessage`, `NextQuestion`, `Tick`,
    `UploadResume`) are proved to perform the matching `Flow` step on `Snapshot()` and to
    keep `Valid()`.
  - The helpers `Prompt`, `CollectField`, `Finish` and `TakeFields` are proved to perform
    their `Flow` step (`Prompted`, `Collect`, `Finished`, `Took`), without a `Valid()`
    obligation of their own.
  - `SaveAnswer` is proved to set the list to `RecordAnswer` of the old list and to store it.

The component's nondeterminism becomes parameters:

- the session id drawn with `Math.random()` at mount is a constructor argument;
- the draw of `Math.random()` used by the scorer is a parameter `rand` with `0 <= rand < 1`;
- the text extracted from the PDF is a parameter of the upload.

Three behaviours of the code differ from what one might expect of an interview engine
(a terminal finished state, one saved answer per question asked, scores up to 100). The
model follows the code:

- The number of saved answers is not the question counter but one less (`currentQuestionIndex - 1`): the counter is raised when a question is asked,
  and the answer is saved when the next one is asked. `Inv` states the code's relation.
- The finished state is not terminal. The timer effect does stop
  (`TickMeaning`), but a message typed after the finish is still saved as an answer, and
  the record is scored again with a new draw (`LateSubmission`). So after the finish `Inv`
  only guarantees at least six answers.
- Scores never reach 100: `Math.floor(Math.random() * 100)` gives [0, 99], and `Score`
  states that range.

Two facts about the React component justify modelling it as sequential steps:

- The prompt effect's automatic start of the first question (`App.tsx:110-113`) requires an
  empty transcript. The transcript is never empty after the mount-time prompt, so that branch
  never fires. In `Session.Prompt` it is an `assert false` branch, discharged by the
  invariant `messages != []`. The first question is started by the timer effect instead
  (`TickStep` with the timer at 0).
- `finishInterview` maps over the `candidates` list captured at render time, not the list
  the answer step just built.
  - When the session's record already exists, the two lists share that record object, so
    the pushed answer is visible through both.
  - `Inv` proves the record exists whenever the interview can finish (counter at least 2).
  - So scoring the freshly saved list, as `Advance` does, gives the same result.

## Model

| member | source | states |
|---|---|---|
| Chars.IsBlank | ai-interview/src/App.tsx:122 | an input is ignored exactly when every character is JavaScript whitespace (what `trim` removes) |
| Chars.Trim | ai-interview/src/App.tsx:95 | the trimmed string is a slice of the input with only whitespace before and after it; it neither starts nor ends with whitespace, and it is empty exactly when the input is all whitespace |
| Chars.Lower | ai-interview/src/App.tsx:75 | no contract of its own: `toLowerCase` on ASCII letters, characterised through `Resume.IsPdfMeaning` |
| Chars.RunEnd | ai-interview/src/App.tsx:16-17 | the end of the longest run of one character class from a position: every character before it is in the class, the one at it is not |
| Validation.ValidateEmail | ai-interview/src/App.tsx:16 | no contract of its own: the scanner form of the email pattern, characterised by `Validation.ValidateEmailMeaning` |
| Validation.ValidatePhone | ai-interview/src/App.tsx:17 | no contract of its own: the scanner form of the phone pattern, characterised by `Validation.ValidatePhoneMeaning` |
| Validation.ValidateEmailMeaning | ai-interview/src/App.tsx:16 | an email is valid exactly when it is a non-empty run of letters, digits and `._%+-` followed by `@gmail.com`, and nothing else |
| Validation.ValidatePhoneMeaning | ai-interview/src/App.tsx:17 | a phone number is valid exactly when it is ten decimal digits |
| Validation.EmailFromLocal | ai-interview/src/App.tsx:16 | any non-empty local part drawn from the allowed characters, followed by `@gmail.com`, is accepted |
| Resume.LastDot | ai-interview/src/App.tsx:75 | the position of the last `.` in a prefix, or none if the prefix holds no `.` |
| Resume.Extension | ai-interview/src/App.tsx:75 | the last piece of `split(".")` is the longest suffix without a dot, and it is preceded by a dot unless it is the whole name |
| Resume.IsPdf | ai-interview/src/App.tsx:75-76 | no contract of its own: the lower-cased extension is `pdf`, characterised by `Resume.IsPdfMeaning` |
| Resume.IsPdfMeaning | ai-interview/src/App.tsx:75-79 | a file is accepted exactly when its name ends in `pdf` in any ASCII letter case and is either just `pdf` or has a dot right before it |
| Resume.FindEmailFrom | ai-interview/src/App.tsx:91 | the email search returns the leftmost position where the pattern matches, with the end the pattern forces there; no match means none at any position |
| Resume.EmailMatchInRun | ai-interview/src/App.tsx:91 | a match starting inside a maximal run of local-part characters always ends at `@gmail.com` right after that run |
| Resume.FindPhoneFrom | ai-interview/src/App.tsx:92 | the phone search returns the leftmost ten digits bounded by word boundaries on both sides, or none if no such position exists |
| Resume.LastSpace | ai-interview/src/App.tsx:90 | the last whitespace position in a range, or none when the range has no whitespace |
| Resume.GroupStart | ai-interview/src/App.tsx:90 | for a match of the name pattern at a position, the capture group starts at the largest split the backtracking allows, or the pattern cannot match there |
| Resume.FindNameFrom | ai-interview/src/App.tsx:90 | the name search returns the leftmost match, its capture group taken greedily to the end of its run of letters and spaces; no match means none at any position |
| Resume.ExtractName | ai-interview/src/App.tsx:90-95 | the pre-filled name is the first match's capture group, trimmed, or empty when nothing matches; it is letters and spaces only, and it starts and ends with a letter unless it is empty |
| Resume.ExtractEmail | ai-interview/src/App.tsx:91-96 | the pre-filled email is empty exactly when the text holds no match; otherwise it is the text of the leftmost match, with the end the pattern forces at that start, and it passes `validateEmail` |
| Resume.ExtractPhone | ai-interview/src/App.tsx:92-97 | the pre-filled phone is empty exactly when the text holds no match; otherwise it is the ten characters of the leftmost `\b\d{10}\b` match, and it passes `validatePhone` |
| Resume.Extract | ai-interview/src/App.tsx:90-99 | the three field shapes (name of letters and spaces with letters at both ends, email and phone empty or valid), and email and phone are empty exactly when no position of the text matches their pattern |
| Records.BankShape | ai-interview/src/App.tsx:20-27 | the bank has six questions with time limits 20, 20, 60, 60, 120, 120 seconds, all positive |
| Records.Score | ai-interview/src/App.tsx:185 | the placeholder score lies in [0, 99] |
| Records.Find | ai-interview/src/App.tsx:153 | `find` by id gives the first record with that id, or none when no record has it |
| Records.RecordAnswer | ai-interview/src/App.tsx:151-167 | no contract of its own: the answer-saving step on the list, characterised by `Records.RecordAnswerSpec` |
| Records.RecordAnswerSpec | ai-interview/src/App.tsx:151-167 | saving an answer appends exactly that answer to the session's answers, creates the record with the identity fields if absent, keeps the id unique and leaves other records untouched |
| Records.FindAfter | ai-interview/src/App.tsx:153-161 | after a record is appended to a list without the id, `find` returns the appended record |
| Records.FindSame | ai-interview/src/App.tsx:153 | `find` depends only on which positions carry the id |
| Records.Stamp | ai-interview/src/App.tsx:181-189 | every record with the session id gets the score and the fixed summary, with its other fields kept; every other record is unchanged |
| Records.StampKeepsAnswers | ai-interview/src/App.tsx:181-189 | scoring changes neither which record `find` returns nor the session's answers, and keeps the id unique |
| Flow.StageOf | ai-interview/src/App.tsx:128-142 | fields are asked in the order name, then email, then phone; the session is ready exactly when the name is non-empty and email and phone are valid |
| Flow.Prompted | ai-interview/src/App.tsx:106-118 | no contract of its own: the prompt effect on a state, characterised by `Flow.SendCollects` and `Flow.UploadFills` |
| Flow.Mount | ai-interview/src/App.tsx:42-53 | no contract of its own: the initial state followed by the mount-time prompt effect (`App.tsx:107`), characterised by `Flow.MountInv` |
| Flow.Saved | ai-interview/src/App.tsx:151-167 | no contract of its own: the answer-saving step, skipped while the counter is 0, characterised by `Flow.AdvanceAsks` and `Flow.AdvanceFinishes` |
| Flow.Collect | ai-interview/src/App.tsx:128-142 | no contract of its own: the field-collection branch, characterised by `Flow.SendCollects` |
| Flow.Finished | ai-interview/src/App.tsx:180-195 | no contract of its own: `finishInterview` on a state, characterised by `Flow.AdvanceFinishes` |
| Flow.Advance | ai-interview/src/App.tsx:149-178 | no contract of its own: `handleNextQuestion` on a state, characterised by `Flow.AdvanceAsks`, `Flow.AdvanceFinishes` and `Flow.AdvanceKeepsInv` |
| Flow.Send | ai-interview/src/App.tsx:121-147 | no contract of its own: `handleSendMessage` on a state, characterised by `Flow.SendCollects`, `Flow.LateSubmission` and `Flow.SendKeepsInv` |
| Flow.TickStep | ai-interview/src/App.tsx:58-71 | no contract of its own: one run of the timer effect, characterised by `Flow.TickMeaning` and `Flow.TickKeepsInv` |
| Flow.Took | ai-interview/src/App.tsx:94-99 | no contract of its own: the resume-data update with the prompt effect, characterised by `Flow.UploadFills` |
| Flow.Upload | ai-interview/src/App.tsx:74-103 | no contract of its own: `handleResumeUpload` on a state, characterised by `Flow.UploadFills` and `Flow.UploadKeepsInv` |
| Flow.MountInv | ai-interview/src/App.tsx:42-53 | on mount the state is empty except for the transcript, which holds only the name prompt, and the invariant holds |
| Flow.SendCollects | ai-interview/src/App.tsx:121-142 | blank input changes nothing; otherwise the first missing field takes the input, email and phone only when valid; a rejected input still joins the transcript and changes nothing else; an accepted one has the transcript replaced by the next prompt |
| Flow.AdvanceAsks | ai-interview/src/App.tsx:149-174 | asking a question appends its text, starts its positive time limit, raises the counter by one and appends the previous answer (if any), so that the answer count is the counter minus one; records of other ids are unchanged, and before the first question the list is not touched |
| Flow.AdvanceFinishes | ai-interview/src/App.tsx:149-195 | finishing appends the last answer (so the first finish leaves exactly six), scores and summarises the session's record alone (score in [0, 99]), stops the timer, moves the counter past the last question and announces the end |
| Flow.AdvanceKeepsInv | ai-interview/src/App.tsx:149-195 | `handleNextQuestion` keeps the invariant and only appends to the session's answers |
| Flow.SameProgress | ai-interview/src/App.tsx:94-99 | a step that keeps counter, timer and candidate list and leaves a non-empty transcript keeps the invariant |
| Flow.SendKeepsInv | ai-interview/src/App.tsx:121-147 | sending keeps the invariant and only appends to the session's answers |
| Flow.UploadFills | ai-interview/src/App.tsx:90-109 | a PDF upload installs the three extracted fields and the text; the session is ready exactly when all three were found, and otherwise the transcript becomes the prompt for the first missing one |
| Flow.UploadKeepsInv | ai-interview/src/App.tsx:74-103 | an upload keeps the invariant and the session's answers |
| Flow.LateSubmission | ai-interview/src/App.tsx:145-195 | after the finish, a typed message is still recorded as an answer, the interview is finished again, and the record gets the new score |
| Flow.TickMeaning | ai-interview/src/App.tsx:58-71 | the timer effect does nothing unless active, in particular once finished; a running timer loses exactly one second with nothing else changed; an expired timer submits the empty answer |
| Flow.TickKeepsInv | ai-interview/src/App.tsx:58-71 | the timer effect keeps the invariant and only appends to the session's answers |
| Flow.ApplyKeepsInv | ai-interview/src/App.tsx:58-147 | every event (typed message, timer effect run, upload) keeps the invariant and only appends answers |
| Flow.RunKeepsInv | ai-interview/src/App.tsx:58-147 | the invariant holds after any sequence of events, and the session's earlier answers are a prefix of its later ones |
| Interview.Session.constructor | ai-interview/src/App.tsx:42-55 | mounting yields the initial state `Mount()`, nothing persisted, and a valid session |
| Interview.Session.Prompt | ai-interview/src/App.tsx:106-118 | the prompt effect replaces the transcript with the first missing field's prompt; its delayed-start branch cannot be reached |
| Interview.Session.CollectField | ai-interview/src/App.tsx:128-142 | the field-collection branch updates the fields exactly as `Collect` |
| Interview.Session.SaveAnswer | ai-interview/src/App.tsx:150-167 | the candidate list becomes `RecordAnswer` of the old list, and the store holds the new list |
| Interview.Session.Finish | ai-interview/src/App.tsx:180-195 | the state becomes `Finished` of the old state, and the store holds the stamped list |
| Interview.Session.NextQuestion | ai-interview/src/App.tsx:149-178 | the state becomes `Advance` of the old state, and the session stays valid |
| Interview.Session.SendMessage | ai-interview/src/App.tsx:121-147 | the state becomes `Send` of the old state, blank input leaves everything unchanged, and the session stays valid |
| Interview.Session.Tick | ai-interview/src/App.tsx:58-71 | the state becomes `TickStep` of the old state; an inactive session is left unchanged; the session stays valid |
| Interview.Session.TakeFields | ai-interview/src/App.tsx:94-99 | the resume data is replaced and the prompt effect runs, as `Took` |
| Interview.Session.UploadResume | ai-interview/src/App.tsx:74-103 | the state becomes `Upload` of the old state; a non-PDF leaves everything unchanged; the session stays valid |

## Left out

- Reading the PDF (`App.tsx:81-88`, pdf.js) is not modelled; the text it produces is a parameter of the upload.
- `alert` calls, the `return false` that stops the upload widget, and clearing the input box (`setInput("")`) are UI effects and are left out.
- The durable store (`localforage.setItem`) is a ghost field `persisted` holding the last list written; the write is asynchronous and its failure is not modelled.
- `setInterval`, `clearInterval` and the 500 ms `setTimeout` are not modelled as time: each run of the timer effect is one `TickStep`/`Tick`, and the delayed-start branch is shown unreachable.
- Handlers and effects run to completion one after another. React's batching, and the upload handler interleaving with other events across its `await`s, are not modelled.
- The session id string (`Math.random().toString(36)`) and the score's random draw are parameters.
- Resume.IsPdfMeaning: `toLowerCase` is modelled on ASCII letters only. No other character lower-cases to `p`, `d` or `f`, so the accept/reject decision is unaffected.
- Interview.Session.SaveAnswer: `candidate.answers.push` mutates a record object shared with the render-time list; the model updates the list as a value (see above for why the finish step sees the same answers).
- The `input` and `activeTab` state hooks (`App.tsx:41`, `App.tsx:43`) hold the chat box contents and the tab choice, which belong to the rendering; the typed text arrives as a parameter of `SendMessage`.
- The interviewer table, tabs and rendering (`App.tsx:197` on) are not part of this model.
