/** What the poll bot's transitions promise, stated over the pure model in PollSpec. */
module PollProperties {
  import opened Wrappers
  import opened PollSpec

  /** No label occurs twice in the choice list. */
  predicate Distinct(choices: seq<string>) {
    forall i, j :: 0 <= i < j < |choices| ==> choices[i] != choices[j]
  }

  /** The first `m` choices are graded and the rest unset: the shape grading in order produces. */
  predicate Filled(row: Row, choices: seq<string>, m: nat) {
    && m <= |choices|
    && HasKeys(row, choices)
    && (forall i :: 0 <= i < m ==> row[choices[i]].Some?)
    && (forall i :: m <= i < |choices| ==> row[choices[i]] == None)
  }

  /** Every user with a row has grade buttons for exactly the keys of that row. */
  predicate ButtonsMatchRows(s: Poll) {
    forall v :: v in s.results ==> v in s.buttons && s.buttons[v].Keys == s.results[v].Keys
  }

  /** Every row has exactly the current choices as keys. */
  ghost predicate RowsMatch(s: Poll) {
    forall v :: v in s.results ==> forall c :: c in s.results[v] <==> c in s.choices
  }

  // ---------------------------------------------------------------------------
  // Rows

  /** A fresh row has a key for every choice and no grade; grading starts at the first choice. */
  lemma FreshRowIsUnset(choices: seq<string>)
    ensures HasKeys(FreshRow(choices), choices)
    ensures forall c :: c in FreshRow(choices) <==> c in choices
    ensures forall c :: c in FreshRow(choices) ==> FreshRow(choices)[c] == None
    ensures Filled(FreshRow(choices), choices, 0)
    ensures |choices| > 0 ==> !AllSet(FreshRow(choices), choices) && FirstUnset(FreshRow(choices), choices) == 0
  {
    if |choices| > 0 {
      assert FreshRow(choices)[choices[0]] == None;
    }
  }

  /** The number of distinct labels in a list never exceeds its length, and equals it exactly when none repeats. */
  lemma {:induction false} DistinctLabelCount(choices: seq<string>)
    ensures |set c | c in choices| <= |choices|
    ensures |set c | c in choices| == |choices| <==> Distinct(choices)
  {
    if choices != [] {
      var rest := choices[1..];
      DistinctLabelCount(rest);
      var head := choices[0];
      assert (set c | c in choices) == {head} + (set c | c in rest);
      if head in rest {
        assert (set c | c in choices) == (set c | c in rest);
        var j :| 0 <= j < |rest| && rest[j] == head;
        assert choices[0] == choices[j + 1];
      } else {
        assert (set c | c in choices) == (set c | c in rest) + {head};
        if Distinct(rest) {
          forall i, j | 0 <= i < j < |choices| ensures choices[i] != choices[j] {
            if i > 0 {
              assert choices[i] == rest[i - 1] && choices[j] == rest[j - 1];
            } else {
              assert choices[j] == rest[j - 1];
            }
          }
        } else {
          var i, j :| 0 <= i < j < |rest| && rest[i] == rest[j];
          assert choices[i + 1] == choices[j + 1];
        }
      }
    }
  }

  /**
   * Lines 130-131 key the new row by choice label, so repeated labels collapse:
   * the row has one slot per choice exactly when no label repeats.
   */
  lemma DuplicateChoicesCollapse(choices: seq<string>)
    ensures |FreshRow(choices)| <= |choices|
    ensures |FreshRow(choices)| == |choices| <==> Distinct(choices)
  {
    DistinctLabelCount(choices);
    assert FreshRow(choices).Keys == set c | c in choices;
  }

  // ---------------------------------------------------------------------------
  // One click

  /** `Progress` changes at most the clicker's row, and that row keeps its keys. */
  lemma ProgressIsLocal(s: Poll, u: UserId, ev: Event)
    ensures var t := Progress(s, u, ev).0;
      && t.(results := s.results) == s
      && t.results.Keys == s.results.Keys
      && (forall v :: v != u && v in s.results ==> t.results[v] == s.results[v])
      && (u in s.results ==> t.results[u].Keys == s.results[u].Keys)
  {
  }

  /** A click touches only the clicker's row, buttons and validation; the poll itself is left as it was. */
  lemma ClickIsLocal(s: Poll, u: UserId, ev: Event)
    ensures var t := Click(s, u, ev).0;
      && t.isOpen == s.isOpen && t.token == s.token && t.question == s.question && t.choices == s.choices
      && (forall v :: v != u ==> (v in t.results <==> v in s.results))
      && (forall v :: v != u && v in s.results ==> t.results[v] == s.results[v])
      && (forall v :: v != u ==> (v in t.buttons <==> v in s.buttons))
      && (forall v :: v != u && v in s.buttons ==> t.buttons[v] == s.buttons[v])
      && (t.validations == s.validations || t.validations == s.validations + [u])
  {
    if u in s.validations {
    } else if ev == Validate(s.token, u) {
    } else if ev == Reset(s.token, u) {
      if u in s.results {
        ProgressIsLocal(Enrol(s.(results := s.results - {u}), u), u, ev);
      }
    } else if ev == Participate(s.token) {
      if u !in s.results {
        ProgressIsLocal(Enrol(s, u), u, ev);
      }
    } else {
      ProgressIsLocal(s, u, ev);
    }
  }

  /** Any click by a user who has validated changes nothing. */
  lemma ValidatedUserIsFrozen(s: Poll, u: UserId, ev: Event)
    requires u in s.validations
    ensures Click(s, u, ev) == (s, Ignored)
  {
  }

  /** A click on a button of another poll changes nothing. */
  lemma StaleEventIsIgnored(s: Poll, u: UserId, ev: Event)
    requires ev.token != s.token
    ensures Click(s, u, ev).0 == s
  {
  }

  /**
   * The clicker's own validate button of the current poll adds the clicker to the
   * validations and changes nothing else; whether the row is complete is not consulted.
   */
  lemma ValidateAppends(s: Poll, u: UserId)
    requires u !in s.validations
    ensures Click(s, u, Validate(s.token, u)) == (s.(validations := s.validations + [u]), Announced)
  {
  }

  /** Another user's validate or reset button does what a stale button does: nothing. */
  lemma ForeignButtonIsIgnored(s: Poll, u: UserId, v: UserId)
    requires u != v
    ensures Click(s, u, Validate(s.token, v)).0 == s
    ensures Click(s, u, Reset(s.token, v)).0 == s
  {
  }

  /**
   * Reset without a row is a no-op; with a row, the row is replaced by one with
   * every choice unset, fresh grade buttons are issued and the first choice is prompted.
   */
  lemma ResetRestartsRow(s: Poll, u: UserId)
    requires u !in s.validations
    ensures var (t, r) := Click(s, u, Reset(s.token, u));
      && (u !in s.results ==> t == s && r == Ignored)
      && (u in s.results ==>
            && t == s.(results := s.results[u := FreshRow(s.choices)],
                       buttons := s.buttons[u := FreshButtons(s.token, u, s.choices)])
            && (forall c :: c in t.results[u] <==> c in s.choices)
            && (forall c :: c in t.results[u] ==> t.results[u][c] == None)
            && r == (if |s.choices| == 0 then Ignored else Prompt(s.choices[0])))
  {
    if u in s.results {
      FreshRowIsUnset(s.choices);
      var e := Enrol(s.(results := s.results - {u}), u);
      assert e.results == s.results[u := FreshRow(s.choices)];
    }
  }

  /**
   * Participating again changes nothing; a first participation creates a row with
   * every choice unset and prompts the first choice.
   */
  lemma ParticipateEnrols(s: Poll, u: UserId)
    requires u !in s.validations
    ensures var (t, r) := Click(s, u, Participate(s.token));
      && (u in s.results ==> t == s && r == Ignored)
      && (u !in s.results ==>
            && t == Enrol(s, u)
            && (forall c :: c in t.results[u] <==> c in s.choices)
            && (forall c :: c in t.results[u] ==> t.results[u][c] == None)
            && r == (if |s.choices| == 0 then Ignored else Prompt(s.choices[0])))
  {
    FreshRowIsUnset(s.choices);
  }

  /**
   * A grade click records a grade only for the first unset choice, and only when it
   * is that choice's button of the current poll for the clicker; every other choice
   * and every other user's row is unchanged.
   */
  lemma GradeFillsFirstUnsetOnly(s: Poll, u: UserId, ev: Event)
    requires ev.Grade? && u !in s.validations
    requires u in s.results && HasKeys(s.results[u], s.choices) && !AllSet(s.results[u], s.choices)
    ensures var k := FirstUnset(s.results[u], s.choices);
      var c := s.choices[k];
      var t := Click(s, u, ev).0;
      && t.results.Keys == s.results.Keys
      && (forall v :: v in s.results && v != u ==> t.results[v] == s.results[v])
      && t.results[u].Keys == s.results[u].Keys
      && (forall d :: d in s.results[u] && d != c ==> t.results[u][d] == s.results[u][d])
      && s.results[u][c] == None
      && t.results[u][c] == (if IsGradeOf(s, u, c, ev) then Some(ev.grade) else None)
      && (ev.choice != c ==> t == s)
  {
  }

  /** Once every choice is graded, grade clicks change nothing. */
  lemma CompleteRowIgnoresGrades(s: Poll, u: UserId, ev: Event)
    requires ev.Grade? && u in s.results
    requires HasKeys(s.results[u], s.choices) && AllSet(s.results[u], s.choices)
    ensures Click(s, u, ev) == (s, Ignored)
  {
  }

  /**
   * Line 145 indexes `RESULTS[user]` for every click that reaches it: a grade click
   * from a user without a row raises KeyError while a poll with choices exists.
   */
  lemma GradeWithoutRowCrashes(s: Poll, u: UserId, ev: Event)
    requires ev.Grade? && u !in s.validations && u !in s.results && |s.choices| > 0
    ensures Click(s, u, ev) == (s, Crashed)
  {
  }

  /** A grade once set stays, unless its owner clicks their own reset button of the current poll. */
  lemma GradeIsKept(s: Poll, tap: Tap, v: UserId, c: string)
    requires v in s.results && c in s.results[v] && s.results[v][c].Some?
    requires tap != Tap(v, Reset(s.token, v))
    ensures var t := Click(s, tap.user, tap.event).0;
      v in t.results && c in t.results[v] && t.results[v][c] == s.results[v][c]
  {
    ClickIsLocal(s, tap.user, tap.event);
  }

  /** Over any run of clicks, a set grade survives unless its owner resets. */
  lemma {:induction false} GradesPersist(s: Poll, taps: seq<Tap>, v: UserId, c: string)
    requires v in s.results && c in s.results[v] && s.results[v][c].Some?
    requires forall i :: 0 <= i < |taps| ==> taps[i] != Tap(v, Reset(s.token, v))
    ensures var t := Run(s, taps);
      v in t.results && c in t.results[v] && t.results[v][c] == s.results[v][c]
    decreases |taps|
  {
    if taps != [] {
      var s1 := Click(s, taps[0].user, taps[0].event).0;
      GradeIsKept(s, taps[0], v, c);
      ClickIsLocal(s, taps[0].user, taps[0].event);
      GradesPersist(s1, taps[1..], v, c);
    }
  }

  /** Over any run of clicks, a validated user stays validated and their row stays as it was. */
  lemma {:induction false} ValidatedStaysFrozen(s: Poll, taps: seq<Tap>, v: UserId)
    requires v in s.validations
    ensures var t := Run(s, taps);
      && v in t.validations
      && (v in t.results <==> v in s.results)
      && (v in s.results ==> t.results[v] == s.results[v])
    decreases |taps|
  {
    if taps != [] {
      var s1 := Click(s, taps[0].user, taps[0].event).0;
      ClickIsLocal(s, taps[0].user, taps[0].event);
      assert v in s1.validations;
      ValidatedStaysFrozen(s1, taps[1..], v);
    }
  }

  // ---------------------------------------------------------------------------
  // Order of prompts

  /** `Progress` keeps a row filled in order, and prompts the first unset choice. */
  lemma ProgressKeepsOrder(s: Poll, u: UserId, ev: Event, m: nat)
    requires Distinct(s.choices)
    requires u in s.results ==> Filled(s.results[u], s.choices, m)
    ensures var (t, r) := Progress(s, u, ev);
      && (u in t.results ==> exists m' :: Filled(t.results[u], s.choices, m'))
      && (r.Prompt? ==>
            && u in t.results && HasKeys(t.results[u], s.choices) && !AllSet(t.results[u], s.choices)
            && r.choice == s.choices[FirstUnset(t.results[u], s.choices)])
  {
    var (t, r) := Progress(s, u, ev);
    if u in s.results && Lookupable(s, u) && |s.choices| > 0 && !AllSet(s.results[u], s.choices) {
      var row := s.results[u];
      assert row[s.choices[m]] == None;
      var k := FirstUnset(row, s.choices);
      assert k == m;
      var c := s.choices[k];
      if IsGradeOf(s, u, c, ev) {
        var row' := row[c := Some(ev.grade)];
        assert t.results[u] == row';
        forall i | k + 1 <= i < |s.choices| ensures row'[s.choices[i]] == None {
          assert s.choices[i] != c;
        }
        assert Filled(row', s.choices, k + 1);
        if r.Prompt? {
          assert row'[s.choices[k + 1]] == None;
          assert FirstUnset(row', s.choices) == k + 1;
        }
      } else {
        assert Filled(t.results[u], s.choices, m);
      }
    } else {
      assert u in s.results ==> Filled(t.results[u], s.choices, m);
    }
  }

  /**
   * With distinct choices and grading done in order, the row stays filled as a prefix,
   * and a prompted choice is always the first choice still unset.
   */
  lemma PromptIsCurrentChoice(s: Poll, u: UserId, ev: Event, m: nat)
    requires Distinct(s.choices) && u !in s.validations
    requires u in s.results ==> Filled(s.results[u], s.choices, m)
    ensures var (t, r) := Click(s, u, ev);
      && (u in t.results ==> exists m' :: Filled(t.results[u], s.choices, m'))
      && (r.Prompt? ==>
            && u in t.results && HasKeys(t.results[u], s.choices) && !AllSet(t.results[u], s.choices)
            && r.choice == s.choices[FirstUnset(t.results[u], s.choices)])
  {
    FreshRowIsUnset(s.choices);
    if ev == Validate(s.token, u) {
      assert u in s.results ==> Filled(Click(s, u, ev).0.results[u], s.choices, m);
    } else if ev == Reset(s.token, u) {
      if u in s.results {
        ProgressKeepsOrder(Enrol(s.(results := s.results - {u}), u), u, ev, 0);
      }
    } else if ev == Participate(s.token) {
      if u !in s.results {
        ProgressKeepsOrder(Enrol(s, u), u, ev, 0);
      } else {
        assert Filled(Click(s, u, ev).0.results[u], s.choices, m);
      }
    } else {
      ProgressKeepsOrder(s, u, ev, m);
    }
  }

  // ---------------------------------------------------------------------------
  // Rows and the export

  /** Clicks keep every row keyed by exactly the current choices. */
  lemma ClickPreservesRowsMatch(s: Poll, u: UserId, ev: Event)
    requires RowsMatch(s)
    ensures RowsMatch(Click(s, u, ev).0)
  {
    FreshRowIsUnset(s.choices);
    ClickIsLocal(s, u, ev);
  }

  /** When rows match the choices, the export keeps a participant exactly when every choice is graded. */
  lemma ExportedIffAllGraded(s: Poll, u: UserId)
    requires RowsMatch(s) && u in s.results
    ensures HasKeys(s.results[u], s.choices)
    ensures u in CompleteRows(s.results) <==> AllSet(s.results[u], s.choices)
  {
    var row := s.results[u];
    if AllSet(row, s.choices) {
      forall c | c in row ensures row[c].Some? {
        var i :| 0 <= i < |s.choices| && s.choices[i] == c;
      }
    }
  }

  /** The grading step that answers with the summary has just graded the last unset choice. */
  lemma FinishedFillsRow(s: Poll, u: UserId, ev: Event)
    requires Progress(s, u, ev).1 == Finished
    ensures var t := Progress(s, u, ev).0;
      && t.choices == s.choices && u in t.results
      && HasKeys(t.results[u], s.choices) && AllSet(t.results[u], s.choices)
  {
    var row := s.results[u];
    var k := FirstUnset(row, s.choices);
    var c := s.choices[k];
    var row' := row[c := Some(ev.grade)];
    forall i | 0 <= i < |s.choices| ensures row'[s.choices[i]].Some? {
      if s.choices[i] != c {
        assert i < k;
      }
    }
  }

  /** The click that answers with the summary leaves the clicker's row in the export. */
  lemma FinishedRowIsExported(s: Poll, u: UserId, ev: Event)
    requires RowsMatch(s)
    requires Click(s, u, ev).1 == Finished
    ensures u in CompleteRows(Click(s, u, ev).0.results)
  {
    var t := Click(s, u, ev).0;
    ClickPreservesRowsMatch(s, u, ev);
    if ev == Reset(s.token, u) {
      FinishedFillsRow(Enrol(s.(results := s.results - {u}), u), u, ev);
    } else if ev == Participate(s.token) {
      FinishedFillsRow(Enrol(s, u), u, ev);
    } else {
      FinishedFillsRow(s, u, ev);
    }
    ExportedIffAllGraded(t, u);
  }

  // ---------------------------------------------------------------------------
  // Buttons

  /**
   * Rows and buttons are created, rebuilt and cleared together, so every row has
   * buttons for exactly its keys; the buttons of a prompted choice can therefore
   * always be looked up (line 180).
   */
  lemma ButtonsFollowRows(s: Poll, u: UserId, ev: Event, question: string, raw: string, drawn: Token)
    requires ButtonsMatchRows(s)
    ensures ButtonsMatchRows(Open(s, question, raw, drawn).0)
    ensures ButtonsMatchRows(Close(s).0)
    ensures ButtonsMatchRows(Click(s, u, ev).0)
    ensures Click(s, u, ev).1.Prompt? ==> Click(s, u, ev).1.choice in Click(s, u, ev).0.buttons[u]
  {
    var t := Click(s, u, ev).0;
    ClickIsLocal(s, u, ev);
    if u in t.results {
      ClickerButtonsMatch(s, u, ev);
    }
  }

  /** The clicker's buttons after a click are keyed by the keys of the clicker's row. */
  lemma ClickerButtonsMatch(s: Poll, u: UserId, ev: Event)
    requires ButtonsMatchRows(s) && u in Click(s, u, ev).0.results
    ensures u in Click(s, u, ev).0.buttons
    ensures Click(s, u, ev).0.buttons[u].Keys == Click(s, u, ev).0.results[u].Keys
  {
    if u in s.validations || ev == Validate(s.token, u) {
    } else if ev == Reset(s.token, u) && u in s.results {
      EnrolButtonsMatch(s.(results := s.results - {u}), u, ev);
    } else if ev == Participate(s.token) && u !in s.results {
      EnrolButtonsMatch(s, u, ev);
    } else {
      ProgressIsLocal(s, u, ev);
    }
  }

  /** After enrolling, the grading step leaves the new row and the new buttons with the same keys. */
  lemma EnrolButtonsMatch(s: Poll, u: UserId, ev: Event)
    ensures var t := Progress(Enrol(s, u), u, ev).0;
      u in t.results && u in t.buttons && t.buttons[u].Keys == t.results[u].Keys
  {
    var e := Enrol(s, u);
    ProgressIsLocal(e, u, ev);
    assert e.buttons[u].Keys == e.results[u].Keys;
  }

  // ---------------------------------------------------------------------------
  // Opening and closing

  /** Opening while a poll is open is refused and leaves the state alone. */
  lemma OpenWhileOpenIsRefused(s: Poll, question: string, raw: string, drawn: Token)
    requires s.isOpen
    ensures Open(s, question, raw, drawn) == (s, AlreadyOpen)
  {
  }

  /**
   * `major_delete` keeps the token, so the previous poll's participate button still
   * matches after closing; the row it creates has no keys, and after the next
   * `major_create` that user's participate click is ignored and their grade clicks raise.
   */
  lemma StaleRowLocksOutNextPoll(s: Poll, u: UserId, question: string, raw: string, drawn: Token, ev: Event)
    requires drawn != s.token && ev.Grade?
    ensures var closed := Close(s).0;
      var (joined, r) := Click(closed, u, Participate(s.token));
      var reopened := Open(joined, question, raw, drawn).0;
      && r == Ignored && joined.results == map[u := map[]]
      && Click(reopened, u, Participate(drawn)) == (reopened, Ignored)
      && Click(reopened, u, ev) == (reopened, Crashed)
  {
    var closed := Close(s).0;
    var joined := Click(closed, u, Participate(s.token)).0;
    assert FreshRow([]) == map[];
    var reopened := Open(joined, question, raw, drawn).0;
    assert |reopened.choices| >= 1;
    assert reopened.choices[0] !in reopened.results[u];
  }

  /**
   * `major_create` does not clear the validations either: the previous poll's
   * validate button, clicked after closing, still matches and records the user,
   * who is then frozen for every click of the next poll.
   */
  lemma StaleValidateFreezesNextPoll(s: Poll, u: UserId, question: string, raw: string, drawn: Token, ev: Event)
    ensures var closed := Close(s).0;
      var (validated, r) := Click(closed, u, Validate(s.token, u));
      var reopened := Open(validated, question, raw, drawn).0;
      && r == Announced && validated.validations == [u]
      && reopened.isOpen && u in reopened.validations
      && Click(reopened, u, ev) == (reopened, Ignored)
  {
  }
}
