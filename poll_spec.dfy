/**
 * The poll bot's module-level state (OPENED, UUID, QUESTION, CHOICES, RESULTS,
 * BUTTONS, VALIDATIONS) as a value, and its three handlers as pure transitions:
 * `Open` for `major_create`, `Click` for one `major_update` button click and
 * `Close` for `major_delete`. The class in major_bot.dfy is proved to perform
 * exactly these transitions; the lemmas here state what they promise.
 */
module PollSpec {
  import opened Wrappers
  import opened ChoiceText

  /** A Discord user id. */
  type UserId = int

  /** A poll identity: stands for the `uuid.uuid4()` drawn by `major_create`. */
  type Token = nat

  /** The five grade labels, worst to best. */
  const GRADES: seq<string> := ["Nul", "Bof", "Okay", "Bien", "Top"]

  /**
   * A button click, decoded. Each carries the poll token its button was made
   * with; the owner fields are the user id written into the button.
   */
  datatype Event =
    | Participate(token: Token)
    | Reset(token: Token, owner: UserId)
    | Validate(token: Token, owner: UserId)
    | Grade(token: Token, grade: string, owner: UserId, choice: string)

  /** One participant's grades: choice label to grade label, `None` while unset. */
  type Row = map<string, Option<string>>

  datatype Poll = Poll(
    isOpen: bool,
    token: Token,
    question: string,
    choices: seq<string>,
    results: map<UserId, Row>,
    buttons: map<UserId, map<string, seq<Event>>>,
    validations: seq<UserId>)

  /** What a click answers with: nothing, the validation notice, the buttons of a choice, the summary, or a KeyError. */
  datatype Response = Ignored | Announced | Prompt(choice: string) | Finished | Crashed

  /** What `major_create` answers with. */
  datatype Opening = AlreadyOpen | Created(token: Token)

  /** A click by `user` on a button carrying `event`. */
  datatype Tap = Tap(user: UserId, event: Event)

  /** The state when the module is loaded: no poll, a token drawn at start-up. */
  function Initial(t: Token): Poll {
    Poll(false, t, "", [], map[], map[], [])
  }

  // ---------------------------------------------------------------------------
  // Rows and buttons

  /** The row a new participant gets: every choice unset. */
  function FreshRow(choices: seq<string>): Row {
    map c | c in choices :: None
  }

  /** The five grade buttons of one choice for one user, in grade order. */
  function GradeButtons(t: Token, u: UserId, c: string): seq<Event> {
    seq(|GRADES|, i requires 0 <= i < |GRADES| => Grade(t, GRADES[i], u, c))
  }

  /** The grade buttons of every choice for one user. */
  function FreshButtons(t: Token, u: UserId, choices: seq<string>): map<string, seq<Event>> {
    map c | c in choices :: GradeButtons(t, u, c)
  }

  /** Every choice can be looked up in the row. */
  predicate HasKeys(row: Row, choices: seq<string>) {
    forall i :: 0 <= i < |choices| ==> choices[i] in row
  }

  /** Every choice has a grade. */
  predicate AllSet(row: Row, choices: seq<string>)
    requires HasKeys(row, choices)
  {
    forall i :: 0 <= i < |choices| ==> row[choices[i]].Some?
  }

  /** The position of the choice being graded: the first one still unset. */
  function FirstUnset(row: Row, choices: seq<string>): (k: nat)
    requires HasKeys(row, choices) && !AllSet(row, choices)
    ensures k < |choices| && row[choices[k]] == None
    ensures forall j :: 0 <= j < k ==> row[choices[j]].Some?
  {
    if row[choices[0]] == None then 0 else 1 + FirstUnset(row, choices[1..])
  }

  /** Lines 143-146 read `RESULTS[user][choice]` for every choice without raising. */
  predicate Lookupable(s: Poll, u: UserId) {
    |s.choices| == 0 || (u in s.results && HasKeys(s.results[u], s.choices))
  }

  // ---------------------------------------------------------------------------
  // Transitions

  /** `major_create`: refused while a poll is open; otherwise a fresh token, the question and the parsed choices. */
  function Open(s: Poll, question: string, raw: string, drawn: Token): (r: (Poll, Opening))
    ensures r.1 == AlreadyOpen <==> s.isOpen
    ensures s.isOpen ==> r.0 == s
    ensures r.1.Created? ==> && r.0.token == r.1.token == drawn
                             && r.0.question == question && r.0.choices == ParseChoices(raw)
    ensures r.0.isOpen && r.0.results == s.results && r.0.buttons == s.buttons && r.0.validations == s.validations
  {
    if s.isOpen then (s, AlreadyOpen)
    else (s.(isOpen := true, token := drawn, question := question, choices := ParseChoices(raw)), Created(drawn))
  }

  /**
   * `major_delete`: back to the state the module is loaded in, under the same
   * token; answers the closed question. A create afterwards always succeeds.
   */
  function Close(s: Poll): (r: (Poll, string))
    ensures r.0 == Initial(s.token) && r.1 == s.question
    ensures forall q, raw, t :: Open(r.0, q, raw, t).1 == Created(t)
  {
    (s.(isOpen := false, question := "", choices := [], results := map[], buttons := map[], validations := []), s.question)
  }

  /** Lines 126-137: a fresh row and fresh grade buttons for `u`. */
  function Enrol(s: Poll, u: UserId): Poll {
    s.(results := s.results[u := FreshRow(s.choices)],
       buttons := s.buttons[u := FreshButtons(s.token, u, s.choices)])
  }

  /** `ev` is the grade button of choice `c` made for `u` in the current poll. */
  predicate IsGradeOf(s: Poll, u: UserId, c: string, ev: Event) {
    ev.Grade? && ev.token == s.token && ev.owner == u && ev.choice == c && ev.grade in GRADES
  }

  /** Lines 142-180: stop on a complete row; otherwise record a grade for the first unset choice only. */
  function Progress(s: Poll, u: UserId, ev: Event): (r: (Poll, Response))
    ensures r.1 == Crashed <==> !Lookupable(s, u)
    ensures r.1 == Crashed || r.1 == Ignored ==> r.0 == s
    ensures r.1 != Announced
    ensures r.1.Prompt? ==> r.1.choice in s.choices && u in r.0.results && r.1.choice in r.0.results[u]
  {
    if !Lookupable(s, u) then (s, Crashed)
    else if |s.choices| == 0 || AllSet(s.results[u], s.choices) then (s, Ignored)
    else
      var row := s.results[u];
      var k := FirstUnset(row, s.choices);
      var c := s.choices[k];
      if IsGradeOf(s, u, c, ev) then
        (s.(results := s.results[u := row[c := Some(ev.grade)]]),
         if k + 1 < |s.choices| then Prompt(s.choices[k + 1]) else Finished)
      else (s, Prompt(c))
  }

  /** `major_update`: one click by user `u` on a button carrying `ev`. */
  function Click(s: Poll, u: UserId, ev: Event): (r: (Poll, Response))
    ensures r.1 == Announced <==> u !in s.validations && ev == Validate(s.token, u)
    ensures r.1 == Crashed ==> r.0 == s
    ensures r.1.Prompt? ==> r.1.choice in s.choices && u in r.0.results && r.1.choice in r.0.results[u]
  {
    if u in s.validations then (s, Ignored)
    else if ev == Validate(s.token, u) then (s.(validations := s.validations + [u]), Announced)
    else if ev == Reset(s.token, u) then
      if u !in s.results then (s, Ignored)
      else Progress(Enrol(s.(results := s.results - {u}), u), u, ev)
    else if ev == Participate(s.token) then
      if u in s.results then (s, Ignored)
      else Progress(Enrol(s, u), u, ev)
    else Progress(s, u, ev)
  }

  /** A sequence of clicks, one after the other. */
  function Run(s: Poll, taps: seq<Tap>): Poll
    decreases |taps|
  {
    if taps == [] then s else Run(Click(s, taps[0].user, taps[0].event).0, taps[1..])
  }

  /** `dict_to_csv`'s filter: the rows with no unset grade. */
  function CompleteRows(results: map<UserId, Row>): (kept: map<UserId, Row>)
    ensures forall u :: u in kept <==> u in results && None !in results[u].Values
    ensures forall u :: u in kept ==> kept[u] == results[u]
  {
    map u | u in results && None !in results[u].Values :: results[u]
  }
}
