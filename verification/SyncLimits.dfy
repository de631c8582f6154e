/** Where a full sync falls short: an input that leaves its conflict. */
module SyncLimits {
  import opened Text
  import opened Requirements
  import opened Sync
  import opened SyncConverges
  import MergeLimits

  const CHOICES := [Choice("a", Project)]

  lemma IndentedReads()
    ensures Strip(" a") == "a" && Strip("a") == "a" && KeyOf(" a") == Some("a")
  {
    hide ParseReq;
    assert " a"[1..] == "a" && RStrip("a") == "a";
    MergeLimits.NameReads();
  }

  lemma PinnedReads()
    ensures Strip("a>1") == "a>1" && KeyOf("a>1") == Some("a")
  {
    hide ParseReq;
    MergeLimits.PinnedReads();
  }

  lemma OneLineField(line: string, key: string)
    requires KeyOf(line) == Some(key) && |line| <= 4
    ensures LineMap([line]) == map[key := Strip(line)] && OneLinePerKey([line]) && !HasPipConflicts([line])
  {
    hide KeyOf, Strip;
    assert [line][..0] == [];
    assert !Contains([line][0], HEAD);
  }

  lemma ChosenA()
    ensures DistinctChoices(CHOICES) && forall k :: Chosen(CHOICES, k) == if k == "a" then Some(Project) else None
  {
    assert CHOICES[..0] == [];
    assert forall k :: Chosen([], k) == None;
  }

  lemma IndentedSync()
    ensures DepMap([" a"]) == map["a" := "a"] && DepMap(["a>1"]) == map["a" := "a>1"]
    ensures FullSync([" a"], ["a>1"], [], [], CHOICES)
  {
    hide KeyOf, Strip, LineMap, Find, Compare, Unmarked;
    IndentedReads();
    PinnedReads();
    OneLineField(" a", "a");
    OneLineField("a>1", "a");
    NoMarkersNothingCut([" a"]);
    NoMarkersNothingCut(["a>1"]);
    var im, pm := DepMap([" a"]), DepMap(["a>1"]);
    assert |"a"| != |"a>1"|;
    CompareSays(im, pm);
    ChosenA();
    assert forall k :: Clashes(im, pm, k) <==> k == "a";
    assert forall x :: !OnlyHas(im, pm, x) && !OnlyHas(pm, im, x);
  }

  /** A line with a blank before it: the project wins, and the instance's line stays as it was. */
  lemma IndentedLineStaysInConflict()
    ensures FullSync([" a"], ["a>1"], [], [], CHOICES)
    ensures var (inst, proj) := Synced([" a"], ["a>1"], [], [], CHOICES);
            ShowsClash(Compare(DepMap(inst), DepMap(proj)), "a")
  {
    hide FullSync, DepMap, Synced, Compare, ShowsClash;
    IndentedSync();
    FullSyncConverges([" a"], ["a>1"], [], [], CHOICES);
    ChosenA();
    assert |"a"| != |" a"| && |"a"| != |"a>1"|;
    assert Clashes(DepMap([" a"]), DepMap(["a>1"]), "a");
  }
}
