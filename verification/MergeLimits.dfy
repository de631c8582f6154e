/** Where the merge falls short of what it promises: exactly when, and an input for each. */
module MergeLimits {
  import opened Text
  import opened Requirements
  import opened Merge
  import opened Reconcile
  import opened MergeTheorems
  import opened MergePromises
  import opened MergeAgain

  /* ---- A package asked for more than once ---- */

  /** A package the field does not state is stated as first asked. With provenance the
      repository is recorded as the author of the last ask, which is backed exactly when
      they are one; without, a conflict is reported exactly when some ask differs, and
      shown in neither case. */
  lemma NewPackage(text: Lines, incoming: Lines, repo: Repo, sources: Option<Sources>, name: string)
    requires Mergeable(text, incoming) && !Mentions(Segments(text), name) && Asks(Reqs(incoming), name) != []
    ensures var r, asks := Merged(text, incoming, repo, sources), Asks(Reqs(incoming), name);
            var owning, differs := Owning(repo, sources), exists raw :: raw in asks && raw != asks[0];
            && EntryAt(Segments(r.content), name) == Some(CleanEntry(asks[0]))
            && !Shows(r.content, name)
            && (owning ==>
                  && r.sources.Some? && Get(r.sources.value, name) == Some(Source(repo.key, Last(asks), repo.origin))
                  && (name in Pruned(r.content, r.sources.value) <==> asks[0] == Last(asks)))
            && (!owning ==> Get(Given(r.sources), name) == Get(Given(sources), name))
            && (NamesConflict(r.conflicts, name) <==> !owning && differs)
            && (NamesUpdate(r.updated, name) <==> owning && differs)
  {
    hide ParseReq, Find, Strip, Segments, Merged, EntryAt, Other, Shows, Pruned, Asks;
    var r, asks := Merged(text, incoming, repo, sources), Asks(Reqs(incoming), name);
    EntryAtMentions(Segments(text), name);
    MergedEntry(text, incoming, repo, sources, name);
    OwnerLeft(text, incoming, repo, sources, name);
    ShowsIsInConflict(r.content, name);
    OtherIs(asks, asks[0]);
    assert Last(asks) in asks;
    if r.sources.Some? {
      PrunedIs(r.content, r.sources.value, name);
    }
  }

  /** A line nobody owns, standing whole, is overwritten exactly when that very line
      is asked for first and another last. */
  lemma UnownedLineIsTakenIff(text: Lines, incoming: Lines, repo: Repo, sources: Sources, name: string, spec: string)
    requires Mergeable(text, incoming) && name !in sources
    requires EntryAt(Segments(text), name) == Some(CleanEntry(spec)) && spec in text
    ensures var r, asks := Merged(text, incoming, repo, Some(sources)), Asks(Reqs(incoming), name);
            var now := EntryAt(Segments(r.content), name);
            && now.Some?
            && (now.value.spec != spec <==> repo.key != "" && asks != [] && asks[0] == spec && Last(asks) != spec)
            && (NamesUpdate(r.updated, name) <==>
                  repo.key != "" && asks != [] && asks[0] == spec && exists raw :: raw in asks && raw != spec)
            && (name in r.sources.value <==> repo.key != "" && asks != [] && asks[0] == spec)
            && (name in r.sources.value ==> r.sources.value[name] == Source(repo.key, Last(asks), repo.origin))
  {
    hide ParseReq, Find, Strip, Segments, Merged, EntryAt, Other, Asks;
    var asks := Asks(Reqs(incoming), name);
    MergedEntry(text, incoming, repo, Some(sources), name);
    OtherIs(asks, spec);
    OtherNone();
    assert asks != [] ==> Last(asks) in asks;
  }

  /* ---- Manifests that name each package once ---- */

  lemma {:induction false} NotNamed(reqs: seq<Req>, name: string)
    requires forall i :: 0 <= i < |reqs| ==> reqs[i].name != name
    ensures Asks(reqs, name) == []
  {
    if reqs != [] {
      NotNamed(reqs[..|reqs| - 1], name);
    }
  }

  lemma {:induction false} NamedOnce(reqs: seq<Req>, name: string)
    requires DistinctReqs(reqs)
    ensures |Asks(reqs, name)| <= 1
  {
    if reqs != [] {
      var front, r := reqs[..|reqs| - 1], reqs[|reqs| - 1];
      NamedOnce(front, name);
      if r.name == name {
        NotNamed(front, name);
      }
    }
  }

  lemma OneAsk(asks: seq<string>, spec: string)
    requires |asks| == 1
    ensures Other(asks, spec) == if asks[0] != spec then Some(asks[0]) else None
  {
    OtherNone();
  }

  /** Nobody's line is stolen: a clean line ends up rewritten exactly when the
      repository is recorded as its owner, it stands whole, and it is asked for in another way. */
  lemma NobodysLineIsStolen(text: Lines, incoming: Lines, repo: Repo, sources: Option<Sources>, name: string, spec: string)
    requires Mergeable(text, incoming) && DistinctReqs(Reqs(incoming))
    requires EntryAt(Segments(text), name) == Some(CleanEntry(spec))
    ensures var r, asks := Merged(text, incoming, repo, sources), Asks(Reqs(incoming), name);
            var owner, now := Get(Given(sources), name), EntryAt(Segments(r.content), name);
            && now.Some?
            && (now.value.CleanEntry? && now.value.spec != spec <==>
                && Owning(repo, sources) && owner.Some? && owner.value.repo == repo.key
                && spec in text && asks != [] && asks[0] != spec)
            && (now.value.CleanEntry? && now.value.spec != spec ==>
                  && r.sources.Some? && now.value.spec == asks[0]
                  && Get(r.sources.value, name) == Some(Source(repo.key, asks[0], repo.origin)))
  {
    hide ParseReq, Find, Strip, Segments, Merged, EntryAt, Other, Asks;
    var asks := Asks(Reqs(incoming), name);
    MergedEntry(text, incoming, repo, sources, name);
    NamedOnce(Reqs(incoming), name);
    OtherNone();
    if asks != [] {
      OneAsk(asks, spec);
    }
  }

  /** The update the loop meant to make found no line to make it on. */
  predicate Missed(text: Lines, updated: seq<Update>, name: string) {
    exists k :: 0 <= k < |updated| && updated[k].name == name && updated[k].was !in text
  }

  lemma {:induction false} UpdateSays(repo: Repo, owning: bool, src: Sources, items: seq<Item>, reqs: seq<Req>, u: Update)
    requires u in Each(UpdatedBy(repo, owning, src, items), reqs) && |Asks(reqs, u.name)| <= 1
    ensures Stated(items, reqs, u.name) == Some(u.was) && Asks(reqs, u.name) == [u.now]
  {
    hide EntryAt;
    var front, r, f := reqs[..|reqs| - 1], reqs[|reqs| - 1], UpdatedBy(repo, owning, src, items);
    assert Asks(reqs, u.name) == Asks(front, u.name) + if r.name == u.name then [r.raw] else [];
    if u in Each(f, front) {
      UpdateSays(repo, owning, src, items, front, u);
    } else {
      assert u in f(front, r);
    }
  }

  /** Then an update is missed exactly when the merge claims what the field does not state. */
  lemma MissedExactly(text: Lines, incoming: Lines, repo: Repo, sources: Option<Sources>, name: string)
    requires Mergeable(text, incoming) && DistinctReqs(Reqs(incoming))
    ensures Missed(text, Merged(text, incoming, repo, sources).updated, name) <==>
            Drifts(repo, Owning(repo, sources), Given(sources), text, Reqs(incoming), name)
  {
    hide ParseReq, Find, Strip, Segments, Merged, FinalItems, Each, HeldBy, EntryAt, Asks, Other;
    var r, reqs, asks := Merged(text, incoming, repo, sources), Reqs(incoming), Asks(Reqs(incoming), name);
    var owning, src := Owning(repo, sources), Given(sources);
    MergeReconciles(text, incoming, repo, sources);
    MergedEntry(text, incoming, repo, sources, name);
    NamedOnce(reqs, name);
    OtherNone();
    NoAsks(repo, owning, EntryAt(Segments(text), name), Get(src, name));
    if asks != [] {
      OneAsk(asks, Stated(Segments(text), reqs, name).value);
    }
    forall k | 0 <= k < |r.updated| && r.updated[k].name == name
      ensures Stated(Segments(text), reqs, name) == Some(r.updated[k].was)
    {
      assert r.updated[k] in r.updated;
      UpdateSays(repo, owning, src, Segments(text), reqs, r.updated[k]);
    }
    if Drifts(repo, owning, src, text, reqs, name) {
      assert NamesUpdate(r.updated, name);
      var k :| 0 <= k < |r.updated| && r.updated[k].name == name;
      assert r.updated[k].was !in text;
    }
    if Missed(text, r.updated, name) {
      assert NamesUpdate(r.updated, name);
      assert Held(repo, owning, src, Segments(text), reqs, name) && Differs(Segments(text), reqs, name);
    }
  }

  /** Then every package is steady, and it is restless exactly when it drifts. */
  lemma OnceNamedSettles(text: Lines, incoming: Lines, repo: Repo, sources: Option<Sources>, name: string)
    requires Mergeable(text, incoming) && DistinctReqs(Reqs(incoming))
    ensures var reqs, owning, src := Reqs(incoming), Owning(repo, sources), Given(sources);
            && Steady(owning, Segments(text), reqs, name)
            && (Restless(repo, owning, src, text, reqs, name) <==> Drifts(repo, owning, src, text, reqs, name))
  {
    hide ParseReq, Find, Strip, Segments, Merged, EntryAt, Other, Asks;
    var asks := Asks(Reqs(incoming), name);
    NamedOnce(Reqs(incoming), name);
    OtherNone();
    if asks != [] {
      OneAsk(asks, asks[0]);
      OneAsk(asks, Stated(Segments(text), Reqs(incoming), name).value);
    }
  }

  /* ---- Fields whose requirement lines are the requirement alone ---- */

  predicate AllTidy(text: Lines) {
    forall i :: 0 <= i < |Segments(text)| ==>
      Segments(text)[i].Plain? && ReqOf(Segments(text)[i]).Some? ==> Tidy(Segments(text)[i])
  }

  lemma TidySpecInText(text: Lines, name: string)
    requires Tended(text) && AllTidy(text) && EntryAt(Segments(text), name).Some?
    ensures !InConflict(Segments(text), name) ==> EntryAt(Segments(text), name).value.spec in text
  {
    hide ParseReq, Find, Strip, Segments;
    var j := WhereNamed(Segments(text), name);
    if Segments(text)[j].Plain? {
      WholeLineIsTidy(text, j);
    }
  }

  /** The merge claims what such a field does not state of new packages only: those whose asks end as they did not begin. */
  lemma TidyFieldsMissNothing(text: Lines, incoming: Lines, repo: Repo, sources: Option<Sources>, name: string)
    requires Mergeable(text, incoming) && AllTidy(text)
    ensures var reqs, owning := Reqs(incoming), Owning(repo, sources);
            Drifts(repo, owning, Given(sources), text, reqs, name) <==>
            && owning && !Mentions(Segments(text), name)
            && Asks(reqs, name) != [] && Last(Asks(reqs, name)) != Asks(reqs, name)[0]
  {
    hide ParseReq, Find, Strip, Segments, EntryAt, Other, AllTidy, Asks;
    var asks := Asks(Reqs(incoming), name);
    EntryAtMentions(Segments(text), name);
    if EntryAt(Segments(text), name).Some? {
      TidySpecInText(text, name);
    } else {
      UnstatedIsAbsent(text, Reqs(incoming), name);
      assert asks != [] ==> asks[0] in asks;
    }
  }

  /** And a conflict reported of a package it states is always shown. */
  lemma TidyFieldsMarkEveryReport(text: Lines, incoming: Lines, repo: Repo, sources: Option<Sources>, name: string)
    requires Mergeable(text, incoming) && AllTidy(text)
    ensures var r := Merged(text, incoming, repo, sources);
            && (Shows(r.content, name) <==>
                Shows(text, name) || (NamesConflict(r.conflicts, name) && Mentions(Segments(text), name)))
            && (DistinctReqs(Reqs(incoming)) && NamesConflict(r.conflicts, name) ==> Mentions(Segments(text), name))
  {
    hide ParseReq, Find, Strip, Merged, Segments, EntryAt, Other, AllTidy, Asks, Shows, Held;
    var asks := Asks(Reqs(incoming), name);
    EntryAtMentions(Segments(text), name);
    ConflictsExactly(text, incoming, repo, sources, name);
    MergedEntry(text, incoming, repo, sources, name);
    ShowsIsInConflict(text, name);
    OtherNone();
    if EntryAt(Segments(text), name).Some? {
      TidySpecInText(text, name);
    } else if asks != [] && DistinctReqs(Reqs(incoming)) {
      NamedOnce(Reqs(incoming), name);
      OneAsk(asks, asks[0]);
    }
  }

  /* ---- Inputs ---- */

  lemma CommentCut()
    ensures BeforeHash("a #") == "a "
  {
    hide Strip, NamePrefix, Lower;
    assert "a #"[1..] == " #" && " #"[1..] == "#";
    assert BeforeHash("#") == "" && BeforeHash(" #") == " ";
  }

  lemma BlankCut()
    ensures Strip("a ") == "a"
  {
    hide BeforeHash, NamePrefix, Lower;
    assert "a "[..1] == "a" && RStrip("a ") == "a";
  }

  lemma NameA()
    ensures NamePrefix("a") == "a" && Lower("a") == "a"
  {
    assert "a"[1..] == "";
  }

  lemma CommentedReads()
    ensures ParseReq("a #") == Some(Req("a", "a"))
  {
    hide BeforeHash, Strip, NamePrefix, Lower;
    CommentCut();
    BlankCut();
    NameA();
  }

  lemma PinnedReads()
    ensures ParseReq("a>1") == Some(Req("a", "a>1"))
  {
    assert "a>1"[1..] == ">1" && ">1"[1..] == "1" && "1"[1..] == "";
    assert BeforeHash("1") == "1" && BeforeHash(">1") == ">1" && BeforeHash("a>1") == "a>1";
    assert NamePrefix(">1") == "" && NamePrefix("a>1") == "a" && Lower("a") == "a";
  }

  lemma OneLine(line: string)
    requires |line| < 5 && ParseReq(line).Some?
    ensures Segments([line]) == [Plain(line)] && Reqs([line]) == [ParseReq(line).value]
    ensures Tended([line]) && !Contains(line, HEAD)
    ensures EntryAt([Plain(line)], ParseReq(line).value.name) == Some(CleanEntry(ParseReq(line).value.raw))
  {
    hide ParseReq;
    assert [line][1..] == [] && [line][..0] == [];
  }

  lemma OneReq(q: Req)
    ensures Asks([q], q.name) == [q.raw] && Asks([], q.name) == []
    ensures Other([q.raw], q.raw) == None
  {
    AsksSnoc([], q, q.name);
    assert [] + [q] == [q];
    OneAsk([q.raw], q.raw);
  }

  lemma TwoReqs(q: Req, q': Req)
    requires q.name == q'.name && q.raw != q'.raw
    ensures Asks([q, q'], q.name) == [q.raw, q'.raw]
    ensures Other([q.raw, q'.raw], q.raw) == Some(q'.raw)
  {
    OneReq(q);
    AsksSnoc([q], q', q.name);
    assert [q] + [q'] == [q, q'] && [q.raw] + [q'.raw] == [q.raw, q'.raw];
    OtherSnoc([q.raw], q'.raw, q.raw);
  }

  /** The line is not the requirement alone, and a merge asks for another. */
  lemma CommentedMerge(repo: Repo, sources: Option<Sources>)
    ensures Mergeable(["a #"], ["a>1"]) && Reqs(["a>1"]) == [Req("a", "a>1")] && Asks([Req("a", "a>1")], "a") == ["a>1"]
    ensures EntryAt(Segments(["a #"]), "a") == Some(CleanEntry("a")) && "a" !in ["a #"]
    ensures EntryAfter(repo, Owning(repo, sources), Given(sources), ["a #"], Reqs(["a>1"]), "a") == Some(CleanEntry("a"))
    ensures Other(["a>1"], "a") == Some("a>1")
  {
    hide ParseReq, Find, Strip, Segments, BeforeHash, EntryAt;
    CommentedReads();
    PinnedReads();
    OneLine("a #");
    OneLine("a>1");
    OneReq(Req("a", "a>1"));
    OneAsk(["a>1"], "a");
    assert |"a"| != |"a #"| && |"a"| != |"a>1"|;
  }

  /** A line with a comment: the conflict is reported, and no marker is written. */
  lemma CommentedLineIsNotMarked()
    ensures var r := Merged(["a #"], ["a>1"], Repo("", "r"), None);
            && Mergeable(["a #"], ["a>1"])
            && NamesConflict(r.conflicts, "a") && !Shows(r.content, "a")
  {
    hide ParseReq, Find, Strip, Merged, Segments, BeforeHash, EntryAt, Asks, Other, Shows, EntryAfter;
    CommentedMerge(Repo("", "r"), None);
    MergedEntry(["a #"], ["a>1"], Repo("", "r"), None, "a");
    ShowsIsInConflict(Merged(["a #"], ["a>1"], Repo("", "r"), None).content, "a");
  }

  /** The same line, owned by the repository: the update is recorded, not made, and recorded again by the next merge. */
  lemma CommentedLineIsNotUpdated()
    ensures var sources := map["a" := Source("k", "a", "r")];
            var first := Merged(["a #"], ["a>1"], Repo("k", "r"), Some(sources));
            var second := Merged(first.content, ["a>1"], Repo("k", "r"), first.sources);
            && Mergeable(["a #"], ["a>1"])
            && NamesUpdate(first.updated, "a") && EntryAt(Segments(first.content), "a") == Some(CleanEntry("a"))
            && second.content == first.content && second.updated != []
  {
    hide ParseReq, Find, Strip, Merged, Segments, BeforeHash, EntryAt, Asks, Other, Shows, EntryAfter;
    var repo, sources := Repo("k", "r"), map["a" := Source("k", "a", "r")];
    CommentedMerge(repo, Some(sources));
    MergedEntry(["a #"], ["a>1"], repo, Some(sources), "a");
    MergeAgainChangesNothing(["a #"], ["a>1"], repo, Some(sources));
    assert Restless(repo, true, sources, ["a #"], Reqs(["a>1"]), "a");
    forall n ensures Steady(true, Segments(["a #"]), Reqs(["a>1"]), n) {
      OnceNamedSettles(["a #"], ["a>1"], repo, Some(sources), n);
    }
  }

  lemma TwiceRead(q: Req, q': Req)
    requires q == Req("a", "a") && q' == Req("a", "a>1")
    ensures Reqs(["a", "a>1"]) == [q, q']
  {
    hide ParseReq;
    PinnedReads();
    NameReads();
    var incoming := ["a", "a>1"];
    assert incoming[..1] == ["a"] && ["a"][..0] == [];
    assert Reqs(["a"]) == [q];
  }

  lemma TwiceMerge(line: string)
    requires line == "" || line == "a"
    ensures Mergeable([line], ["a", "a>1"]) && Asks(Reqs(["a", "a>1"]), "a") == ["a", "a>1"] && "a" != "a>1"
    ensures Other(["a", "a>1"], "a") == Some("a>1")
    ensures line == "" ==> !Mentions(Segments([line]), "a")
    ensures line == "a" ==> EntryAt(Segments([line]), "a") == Some(CleanEntry("a"))
  {
    hide ParseReq, Find, Strip, Segments, BeforeHash, EntryAt;
    var q, q' := Req("a", "a"), Req("a", "a>1");
    PinnedReads();
    NameReads();
    TwiceRead(q, q');
    assert |"a"| != |"a>1"|;
    TwoReqs(q, q');
    OneLine("a");
    OneLine("a>1");
    if line == "" {
      EmptyField();
    }
  }

  lemma EmptyField()
    ensures Segments([""]) == [Plain("")] && Tended([""]) && !Mentions([Plain("")], "a")
  {
    assert [""][1..] == [];
  }

  /** A new package the manifest names twice: the second line is claimed and recorded as an update, the first is written. */
  lemma TwiceNamedIsMisclaimed()
    ensures var r := Merged([""], ["a", "a>1"], Repo("k", "r"), Some(map[]));
            && Mergeable([""], ["a", "a>1"])
            && EntryAt(Segments(r.content), "a") == Some(CleanEntry("a")) && NamesUpdate(r.updated, "a")
            && r.sources.Some? && Get(r.sources.value, "a") == Some(Source("k", "a>1", "r"))
  {
    hide ParseReq, Find, Strip, Merged, Segments, EntryAt, Asks, Other, Shows, Pruned;
    TwiceMerge("");
    assert "a>1" in ["a", "a>1"];
    NewPackage([""], ["a", "a>1"], Repo("k", "r"), Some(map[]), "a");
  }

  /** Without provenance: a conflict is reported, and no marker is written. */
  lemma TwiceNamedIsNotMarked()
    ensures var r := Merged([""], ["a", "a>1"], Repo("k", "r"), None);
            Mergeable([""], ["a", "a>1"]) && NamesConflict(r.conflicts, "a") && !Shows(r.content, "a")
  {
    hide ParseReq, Find, Strip, Merged, Segments, EntryAt, Asks, Other, Shows, Pruned;
    TwiceMerge("");
    assert "a>1" in ["a", "a>1"];
    NewPackage([""], ["a", "a>1"], Repo("k", "r"), None, "a");
  }

  /** The operator's line, named as it stands and then in another way: adopted, and overwritten by the same merge. */
  lemma TwiceNamedTakesTheLine()
    ensures var r := Merged(["a"], ["a", "a>1"], Repo("k", "r"), Some(map[]));
            && Mergeable(["a"], ["a", "a>1"])
            && EntryAt(Segments(["a"]), "a") == Some(CleanEntry("a"))
            && EntryAt(Segments(r.content), "a") != Some(CleanEntry("a"))
            && r.sources.Some? && "a" in r.sources.value && NamesUpdate(r.updated, "a")
  {
    hide ParseReq, Find, Strip, Merged, Segments, EntryAt, Asks, Other, Shows, Pruned;
    TwiceMerge("a");
    assert "a>1" in ["a", "a>1"];
    assert ["a"][0] == "a" && "a" in ["a"];
    MergedEntry(["a"], ["a", "a>1"], Repo("k", "r"), Some(map[]), "a");
    UnownedLineIsTakenIff(["a"], ["a", "a>1"], Repo("k", "r"), map[], "a", "a");
  }

  lemma NameReads()
    ensures ParseReq("a") == Some(Req("a", "a"))
  {
    assert "a"[1..] == "" && BeforeHash("a") == "a" && NamePrefix("a") == "a" && Lower("a") == "a";
  }

  /** The head of a marker and nothing else: the deploy gate is closed, with no conflict to show for it. */
  lemma StrayHeadClosesGate()
    ensures HasPipConflicts([HEAD]) && Detected(Segments([HEAD])) == []
  {
    assert Contains([HEAD][0], HEAD);
    assert [HEAD][1..] == [];
    assert Segments([HEAD]) == [Plain(HEAD)];
    assert [Plain(HEAD)][..0] == [];
  }
}
