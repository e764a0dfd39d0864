/** Teaching one switch can confirm an open question of another. */
module SurfaceTeach {
  import opened Options
  import opened SurfaceText
  import opened Surface
  import opened SurfaceEdits
  import opened SurfaceInvariant
  import opened SurfaceBuilt
  import opened SurfaceStarts
  import opened SurfaceRuns
  import opened SurfaceMirror

  /** Two buttons on switches of their own, both marked as open about B. */
  function TwoQuestions(): seq<Control> {
    Finals([Press("B", Unresolved), Press("B", Unresolved)])
  }

  function Asking(): Document {
    Document(true, Custom, SinglePanel, Route, TwoQuestions(), "", "", 3)
  }

  lemma QuestionAt(i: nat)
    requires i < 2
    ensures |TwoQuestions()| == 2
    ensures var c := TwoQuestions()[i];
      && c.id == GeneratedId(1 + i) && c.physicalId == PhysicalIdOf(GeneratedId(1 + i)) && c.resolution.Unresolved?
      && c.channels == PressChannels("B") && KeyboardKeys(c) == {"B"}
  {
    hide Final, GeneratedId, Member, PhysicalIdOf, PressChannels, KeyboardKeys;
    FinalsSpec([Press("B", Unresolved), Press("B", Unresolved)]);
    PressIs("B", Unresolved, 1 + i);
    CarriesB(TwoQuestions()[i]);
  }

  lemma AskingHolds()
    ensures Inv(Asking())
  {
    hide Body, Reconcile, Finals, KeyboardKeys, PressChannels, GeneratedId, PhysicalIdOf, HasPeer, Final, Member;
    var specs := [Press("B", Unresolved), Press("B", Unresolved)];
    OwnSpecsAreBody(specs);
    QuestionAt(0);
    QuestionAt(1);
    IdsApart(1, 2);
    OpenPair(TwoQuestions(), 0, 1);
    OpenPair(TwoQuestions(), 1, 0);
    assert forall i | 0 <= i < 2 :: Reconciled(TwoQuestions(), TwoQuestions()[i]) == TwoQuestions()[i];
    assert Reconcile(TwoQuestions()) == TwoQuestions();
    MembersAreNamed(TwoQuestions(), 3);
    NothingHasNoName(TwoQuestions());
  }

  lemma FirstIsTaught()
    ensures FindControl(TwoQuestions(), GeneratedId(1)) == Some(TwoQuestions()[0])
    ensures HasChannel(TwoQuestions()[0].channels, "press")
    ensures CleanString("A", 96) == "A"
  {
    hide Finals, KeyboardKeys, GeneratedId, PhysicalIdOf, Final, Member, CleanString, Settled, PressChannels;
    QuestionAt(0);
    KeysAreSettled();
    SettledMeans("A", 96);
    PressHasOne();
  }

  lemma PressHasOne()
    ensures HasChannel(PressChannels("B"), "press")
  {
    assert PressChannels("B")[0].id == "press";
  }

  lemma SecondLosesItsPeer()
    ensures |TwoQuestions()| == 2 && LosesLastPeer(TwoQuestions(), 1, 0, "A")
  {
    hide Finals, KeyboardKeys, GeneratedId, PhysicalIdOf, Final, PressChannels;
    QuestionAt(0);
    QuestionAt(1);
  }

  lemma FirstIsTeachable()
    ensures |TwoQuestions()| == 2
    ensures Teaches(Asking(), GeneratedId(1), "press", "A") && FindControl(TwoQuestions(), GeneratedId(1)) == Some(TwoQuestions()[0])
    ensures CleanString(CleanString("A", 96), 96) == "A"
  {
    hide TwoQuestions, KeyboardKeys, GeneratedId, PhysicalIdOf, PressChannels, HasChannel, CleanString, FindControl;
    QuestionAt(0);
    FirstIsTaught();
  }

  lemma SwitchesDiffer()
    ensures |TwoQuestions()| == 2 && TwoQuestions()[1].physicalId != TwoQuestions()[0].physicalId
    ensures TwoQuestions()[1].resolution.Unresolved?
  {
    hide TwoQuestions, KeyboardKeys, GeneratedId, PhysicalIdOf, PressChannels;
    QuestionAt(0);
    QuestionAt(1);
    IdsApart(1, 2);
  }

  /** On this document, whose invariant holds, teaching the first button A
      confirms the second, which is another switch. */
  lemma TeachingConfirmsAnother()
    ensures Inv(Asking()) && Asking().controls == TwoQuestions() && |TwoQuestions()| == 2
    ensures TwoQuestions()[1].physicalId != TwoQuestions()[0].physicalId && TwoQuestions()[1].resolution.Unresolved?
    ensures FindControl(TwoQuestions(), GeneratedId(1)) == Some(TwoQuestions()[0])
    ensures |Teach(Asking(), GeneratedId(1), "press", "A", "").controls| == 2
    ensures Teach(Asking(), GeneratedId(1), "press", "A", "").controls[1] == TwoQuestions()[1].(resolution := Confirmed)
  {
    hide TwoQuestions, GeneratedId, Inv, Teach, LosesLastPeer, CleanString, FindControl, Teaches;
    AskingHolds();
    FirstIsTeachable();
    SwitchesDiffer();
    SecondLosesItsPeer();
    TeachTouchesOneSwitchIff(Asking(), GeneratedId(1), "press", "A", "", 0, 1);
  }
}
