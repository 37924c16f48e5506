/**
 * The bot's module-level globals as one object, and its three handlers as
 * methods that update them in place, each proved to perform the transition
 * PollSpec defines for it.
 */
module MajorBot {
  import opened Wrappers
  import opened ChoiceText
  import opened PollSpec

  class Bot {
    var isOpen: bool
    var token: Token
    var question: string
    var choices: seq<string>
    var results: map<UserId, Row>
    var buttons: map<UserId, map<string, seq<Event>>>
    var validations: seq<UserId>
    /** Every token drawn so far, the start-up one included. */
    ghost var issued: set<Token>

    ghost predicate Valid()
      reads this
    {
      token in issued
    }

    /** The globals as a PollSpec value. */
    function Snapshot(): Poll
      reads this
    {
      Poll(isOpen, token, question, choices, results, buttons, validations)
    }

    /** Module load: no poll open, a token drawn at start-up. */
    constructor (initial: Token)
      ensures Valid() && issued == {initial}
      ensures Snapshot() == Initial(initial)
    {
      isOpen := false;
      token := initial;
      question := "";
      choices := [];
      results := map[];
      buttons := map[];
      validations := [];
      issued := {initial};
    }

    /**
     * `major_create`: refused while a poll is open; otherwise opens the poll under a
     * token never drawn before. Rows, buttons and validations are not cleared.
     */
    method Create(q: string, raw: string, drawn: Token) returns (r: Opening)
      requires Valid() && drawn !in issued
      modifies this
      ensures Valid()
      ensures (Snapshot(), r) == Open(old(Snapshot()), q, raw, drawn)
      ensures old(isOpen) ==> r == AlreadyOpen && Snapshot() == old(Snapshot()) && issued == old(issued)
      ensures !old(isOpen) ==>
        && r == Created(token) && isOpen && token !in old(issued) && issued == old(issued) + {token}
        && question == q && choices == ParseChoices(raw)
        && results == old(results) && buttons == old(buttons) && validations == old(validations)
    {
      if isOpen {
        return AlreadyOpen;
      }
      isOpen := true;
      token := drawn;
      issued := issued + {drawn};
      question := q;
      choices := ParseChoices(raw);
      r := Created(drawn);
    }

    /** `major_delete`: closes the poll and clears everything but the token; answers the closed question. */
    method Delete() returns (prev: string)
      requires Valid()
      modifies this
      ensures Valid() && issued == old(issued)
      ensures (Snapshot(), prev) == Close(old(Snapshot()))
      ensures !isOpen && question == "" && choices == [] && results == map[] && buttons == map[] && validations == []
      ensures token == old(token) && prev == old(question)
    {
      isOpen := false;
      prev := question;
      question := "";
      choices := [];
      results := map[];
      buttons := map[];
      validations := [];
    }

    /** `major_update`: one click by `clicker` on a button carrying `ev`. */
    method Update(clicker: UserId, ev: Event) returns (resp: Response)
      requires Valid()
      modifies this
      ensures Valid() && issued == old(issued)
      ensures (Snapshot(), resp) == Click(old(Snapshot()), clicker, ev)
    {
      if clicker in validations {
        return Ignored;
      }
      if ev == Validate(token, clicker) {
        validations := validations + [clicker];
        return Announced;
      }
      var isReset := ev == Reset(token, clicker);
      if isReset {
        if clicker !in results {
          return Ignored;
        }
        results := results - {clicker};
      }
      if ev == Participate(token) || isReset {
        if clicker in results {
          return Ignored;
        }
        Join(clicker);
      }
      ghost var mid := Snapshot();
      assert Click(old(Snapshot()), clicker, ev) == Progress(mid, clicker, ev);
      var found, done := ScanRow(clicker);
      if !found {
        return Crashed;
      }
      if done {
        return Ignored;
      }
      resp := GradeCurrent(clicker, ev);
    }

    /** Lines 126-137: a row with every choice unset and the grade buttons of every choice. */
    method Join(clicker: UserId)
      requires Valid()
      modifies this
      ensures Valid() && issued == old(issued)
      ensures Snapshot() == Enrol(old(Snapshot()), clicker)
    {
      var row: Row := map[];
      var rowButtons: map<string, seq<Event>> := map[];
      for i := 0 to |choices|
        invariant row == FreshRow(choices[..i])
        invariant rowButtons == FreshButtons(token, clicker, choices[..i])
      {
        var choice := choices[i];
        assert choices[..i + 1] == choices[..i] + [choice];
        row := row[choice := None];
        var grades: seq<Event> := [];
        for g := 0 to |GRADES|
          invariant grades == GradeButtons(token, clicker, choice)[..g]
        {
          grades := grades + [Grade(token, GRADES[g], clicker, choice)];
        }
        assert grades == GradeButtons(token, clicker, choice);
        rowButtons := rowButtons[choice := grades];
      }
      assert choices[..|choices|] == choices;
      results := results[clicker := row];
      buttons := buttons[clicker := rowButtons];
    }

    /**
     * Lines 143-146: looks up the clicker's grade for every choice. `found` is false
     * where Python raises KeyError; otherwise `done` tells whether every choice is graded.
     */
    method ScanRow(clicker: UserId) returns (found: bool, done: bool)
      ensures found == Lookupable(Snapshot(), clicker)
      ensures found ==> done == (|choices| == 0 || AllSet(results[clicker], choices))
    {
      done := true;
      var i := 0;
      while i < |choices|
        invariant 0 <= i <= |choices|
        invariant i == 0 ==> done
        invariant i > 0 ==> clicker in results && HasKeys(results[clicker], choices[..i])
        invariant i > 0 ==> done == forall j :: 0 <= j < i ==> results[clicker][choices[j]].Some?
      {
        if clicker !in results || choices[i] !in results[clicker] {
          return false, done;
        }
        assert choices[..i + 1] == choices[..i] + [choices[i]];
        if results[clicker][choices[i]] == None {
          done := false;
        }
        i := i + 1;
      }
      assert |choices| > 0 ==> choices[..i] == choices;
      found := true;
    }

    /** Lines 150-180: grades the first unset choice when the click is one of that choice's buttons. */
    method GradeCurrent(clicker: UserId, ev: Event) returns (resp: Response)
      requires Valid() && |choices| > 0 && Lookupable(Snapshot(), clicker)
      requires !AllSet(results[clicker], choices)
      modifies this
      ensures Valid() && issued == old(issued)
      ensures (Snapshot(), resp) == Progress(old(Snapshot()), clicker, ev)
    {
      ghost var start := Snapshot();
      ghost var row := results[clicker];
      ghost var k := FirstUnset(row, choices);
      var next := "";
      var c := 0;
      while c <= |choices|
        invariant c <= k
        invariant Snapshot() == start && issued == old(issued)
        decreases |choices| - c
      {
        var choice := choices[c];
        next := choice;
        if results[clicker][choice] == None {
          assert c == k;
          for g := 0 to |GRADES|
            invariant results == (if IsGradeOf(start, clicker, choice, ev) && ev.grade in GRADES[..g]
                                  then start.results[clicker := row[choice := Some(ev.grade)]]
                                  else start.results)
            invariant next == (if IsGradeOf(start, clicker, choice, ev) && ev.grade in GRADES[..g] && c + 1 < |choices|
                               then choices[c + 1] else choice)
            invariant IsGradeOf(start, clicker, choice, ev) && ev.grade in GRADES[..g] ==> c + 1 < |choices|
            invariant Snapshot() == start.(results := results) && issued == old(issued)
          {
            assert GRADES[..g + 1] == GRADES[..g] + [GRADES[g]];
            if ev == Grade(token, GRADES[g], clicker, choice) {
              results := results[clicker := results[clicker][choice := Some(GRADES[g])]];
              if c + 1 < |choices| {
                next := choices[c + 1];
              } else {
                return Finished;
              }
            }
          }
          assert GRADES[..|GRADES|] == GRADES;
          break;
        }
        c := c + 1;
      }
      return Prompt(next);
    }
  }
}
