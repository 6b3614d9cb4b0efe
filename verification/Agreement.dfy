/** The compilers and the evaluations agree, stated on whole clusters: the
    snapshot counts exactly the current devices whose selectors hold. */
module Agreement {
  import opened Resources
  import opened Boards
  import opened Cel
  import opened Slots
  import LlmfitFit
  import NvidiaFit

  lemma CandidateIffAdmits(q: Query, d: Device)
    ensures Classify(q, d) == Candidate <==> Admits(q, d)
  {
    hide LlmfitFit.Fits, NvidiaFit.PartitionFits, NvidiaFit.BoardFits;
  }

  /** The current slots of the driver whose device satisfies expression `e`. */
  ghost function Selected(e: Expr, driver: string, slices: seq<Slice>): set<Slot> {
    set s | s in AllSlots(slices) && InRange(slices, s) && IsCurrent(slices, driver, s.0) && Holds(e, driver, DeviceAt(slices, s))
  }

  /** On the NVIDIA backend, the advisory count is the number of devices the
      emitted expression would select, and evaluating it anywhere never errs. */
  lemma NvidiaCountIsSelection(t: BoardTable, b: Bounds, deviceClass: string, floor: nat, e: Expr, slices: seq<Slice>)
    requires NvidiaFit.IsNvidiaFit(t, b, deviceClass, floor, e) && "" !in t.boards && b.memoryGi >= 1
    ensures Devices(Nvidia(b, deviceClass, floor, t), slices) == |Selected(e, NVIDIA_DOMAIN, slices)|
    ensures forall driver, d :: IsBool(e, driver, d)
  {
    var q := Nvidia(b, deviceClass, floor, t);
    forall s | s in AllSlots(slices)
      ensures s in SlotsOf(Candidate, q, slices) <==> s in Selected(e, NVIDIA_DOMAIN, slices)
    {
      var d := DeviceAt(slices, s);
      CandidateIffAdmits(q, d);
      NvidiaFit.NvidiaFitAgreesWithEvaluation(t, b, deviceClass, floor, e, d);
    }
    assert SlotsOf(Candidate, q, slices) == Selected(e, NVIDIA_DOMAIN, slices);
    forall driver, d
      ensures IsBool(e, driver, d)
    {
      if driver == NVIDIA_DOMAIN {
        NvidiaFit.NvidiaFitAgreesWithEvaluation(t, b, deviceClass, floor, e, d);
      } else {
        NvidiaFit.ForeignDriverNeverMatches(t, b, deviceClass, floor, e, driver, d);
      }
    }
  }

  /** Under a custom class of the llmfit backend the count is the number of devices the
      fit expression alone would select. */
  lemma CustomClassCountIsSelection(b: Bounds, deviceClass: string, floor: nat, slices: seq<Slice>)
    requires !LlmfitFit.ShippedComputeClass(deviceClass)
    ensures Devices(Llmfit(b, deviceClass, floor), slices) ==
            |Selected(LlmfitFit.FitCEL(b, deviceClass, floor), LLMFIT_DOMAIN, slices)|
  {
    var q := Llmfit(b, deviceClass, floor);
    var e := LlmfitFit.FitCEL(b, deviceClass, floor);
    forall s | s in AllSlots(slices)
      ensures s in SlotsOf(Candidate, q, slices) <==> s in Selected(e, LLMFIT_DOMAIN, slices)
    {
      var d := DeviceAt(slices, s);
      CandidateIffAdmits(q, d);
      LlmfitFit.CustomClassMatchesEvaluation(b, deviceClass, floor, d);
    }
    assert SlotsOf(Candidate, q, slices) == Selected(e, LLMFIT_DOMAIN, slices);
  }

  /** Every device of every current llmfit slice is as the publisher emits it. */
  ghost predicate AllPublished(slices: seq<Slice>) {
    forall i, j :: 0 <= i < |slices| && slices[i].driver == LLMFIT_DOMAIN && 0 <= j < |slices[i].devices| ==>
      LlmfitFit.Published(slices[i].devices[j])
  }

  /** On the llmfit backend, the count under a shipped class is the number of devices
      that class and fit selector together would select; evaluating them errs neither
      on a published device nor on any device of another driver, which they reject. */
  lemma LlmfitCountIsSelection(b: Bounds, deviceClass: string, floor: nat, slices: seq<Slice>)
    requires LlmfitFit.ShippedComputeClass(deviceClass) && AllPublished(slices)
    ensures Devices(Llmfit(b, deviceClass, floor), slices) ==
            |Selected(And(LlmfitFit.ClassCEL(deviceClass), LlmfitFit.FitCEL(b, deviceClass, floor)), LLMFIT_DOMAIN, slices)|
    ensures forall d :: LlmfitFit.Published(d) ==>
              IsBool(And(LlmfitFit.ClassCEL(deviceClass), LlmfitFit.FitCEL(b, deviceClass, floor)), LLMFIT_DOMAIN, d)
    ensures forall driver, d :: driver != LLMFIT_DOMAIN ==>
              Fails(And(LlmfitFit.ClassCEL(deviceClass), LlmfitFit.FitCEL(b, deviceClass, floor)), driver, d)
  {
    var q := Llmfit(b, deviceClass, floor);
    var e := And(LlmfitFit.ClassCEL(deviceClass), LlmfitFit.FitCEL(b, deviceClass, floor));
    forall s | s in AllSlots(slices) && slices[s.0].driver == LLMFIT_DOMAIN
      ensures s in SlotsOf(Candidate, q, slices) <==> s in Selected(e, LLMFIT_DOMAIN, slices)
    {
      var d := DeviceAt(slices, s);
      assert slices[s.0].devices[s.1] == d;
      CandidateIffAdmits(q, d);
      LlmfitFit.SelectorsMatchEvaluation(b, deviceClass, floor, d);
    }
    assert SlotsOf(Candidate, q, slices) == Selected(e, LLMFIT_DOMAIN, slices);
    forall d | LlmfitFit.Published(d)
      ensures IsBool(e, LLMFIT_DOMAIN, d)
    {
      LlmfitFit.SelectorsMatchEvaluation(b, deviceClass, floor, d);
    }
    forall driver, d | driver != LLMFIT_DOMAIN
      ensures Fails(e, driver, d)
    {
      LlmfitFit.ForeignDriverNeverMatches(b, deviceClass, floor, driver, d);
    }
  }
}
