/** A full sync of two fields with one line per key leaves nothing to sync. */
module SyncConverges {
  import opened Text
  import opened Requirements
  import Replacing
  import Order
  import opened Sync

  predicate OneLinePerKey(text: Lines) {
    forall i, j :: 0 <= i < j < |text| && KeyOf(text[i]).Some? ==> KeyOf(text[i]) != KeyOf(text[j])
  }

  /* ---- Maps of lines ---- */

  lemma KeyOfStripped(line: string)
    ensures KeyOf(Strip(line)) == KeyOf(line) && Strip(Strip(line)) == Strip(line)
  {
    StripIdempotent(line);
  }

  lemma {:induction false} LineMapIs(lines: Lines, key: string)
    ensures key in LineMap(lines) <==> exists i :: 0 <= i < |lines| && KeyOf(lines[i]) == Some(key)
    ensures key in LineMap(lines) ==>
              exists i :: 0 <= i < |lines| && KeyOf(lines[i]) == Some(key) && LineMap(lines)[key] == Strip(lines[i])
  {
    hide KeyOf, Strip;
    if lines != [] {
      var n := |lines| - 1;
      LineMapIs(lines[..n], key);
      assert forall i :: 0 <= i < n ==> lines[..n][i] == lines[i];
      assert LineMap(lines) == PutLine(LineMap(lines[..n]), lines[n]);
      if KeyOf(lines[n]) != Some(key) && key in LineMap(lines) {
        var i :| 0 <= i < n && KeyOf(lines[..n][i]) == Some(key) && LineMap(lines[..n])[key] == Strip(lines[..n][i]);
        assert KeyOf(lines[i]) == Some(key) && LineMap(lines)[key] == Strip(lines[i]);
      }
    }
  }

  lemma LineMapAt(lines: Lines, i: nat)
    requires OneLinePerKey(lines) && i < |lines| && KeyOf(lines[i]).Some?
    ensures Get(LineMap(lines), KeyOf(lines[i]).value) == Some(Strip(lines[i]))
  {
    hide KeyOf, Strip, LineMap;
    LineMapIs(lines, KeyOf(lines[i]).value);
  }

  lemma LineMapKeys(lines: Lines, key: string)
    requires key in LineMap(lines)
    ensures KeyOf(LineMap(lines)[key]) == Some(key) && Strip(LineMap(lines)[key]) == LineMap(lines)[key]
  {
    hide KeyOf, Strip, LineMap;
    LineMapIs(lines, key);
    var i :| 0 <= i < |lines| && KeyOf(lines[i]) == Some(key) && LineMap(lines)[key] == Strip(lines[i]);
    KeyOfStripped(lines[i]);
  }

  lemma {:induction false} NoMarkersNothingCut(text: Lines)
    requires !HasPipConflicts(text)
    ensures Unmarked(text) == text
  {
    if text != [] {
      assert !Contains(text[0], HEAD);
      assert !HasPipConflicts(text[1..]) by {
        assert forall k :: 0 <= k < |text[1..]| ==> text[1..][k] == text[k + 1];
      }
      NoMarkersNothingCut(text[1..]);
      assert Segments(text) == [Plain(text[0])] + Segments(text[1..]);
      assert Unmarked(text) == [text[0]] + Unmarked(text[1..]);
    }
  }

  /* ---- The choices ---- */

  predicate DistinctChoices(choices: seq<Choice>) {
    forall i, j :: 0 <= i < j < |choices| ==> choices[i].name != choices[j].name
  }

  function Chosen(choices: seq<Choice>, key: string): Option<Side> {
    if choices == [] then None
    else if choices[|choices| - 1].name == key then Some(choices[|choices| - 1].winner)
    else Chosen(choices[..|choices| - 1], key)
  }

  lemma {:induction false} ChosenOf(choices: seq<Choice>, key: string)
    ensures Chosen(choices, key).Some? <==> exists i :: 0 <= i < |choices| && choices[i].name == key
  {
    if choices != [] {
      var front := choices[..|choices| - 1];
      ChosenOf(front, key);
      assert forall i :: 0 <= i < |front| ==> front[i] == choices[i];
    }
  }

  /** A line of the losing side after the choices: the winner's, when it was there as a whole line. */
  function NextLine(own: map<string, string>, other: map<string, string>, winner: Side, choices: seq<Choice>, line: string)
    : string
  {
    var key := KeyOf(line);
    if key.Some? && Chosen(choices, key.value) == Some(winner) && key.value in own && key.value in other
       && line == own[key.value]
    then other[key.value] else line
  }

  function NextLines(own: map<string, string>, other: map<string, string>, winner: Side, choices: seq<Choice>, text: Lines)
    : Lines
  {
    seq(|text|, i requires 0 <= i < |text| => NextLine(own, other, winner, choices, text[i]))
  }

  predicate Keyed(m: map<string, string>) {
    forall k :: k in m ==> KeyOf(m[k]) == Some(k)
  }

  lemma CutAt(text: Lines, j: nat, now: string)
    requires j < |text|
    ensures text[..j] + [now] + text[j + 1..] == text[j := now]
  {
  }

  lemma ReplaceOnly(text: Lines, j: nat, line: string, now: string)
    requires j < |text| && forall i :: 0 <= i < |text| && i != j ==> text[i] != line
    ensures ReplaceWholeLine(text, line, [now]) == if text[j] == line then text[j := now] else text
  {
    hide ReplaceWholeLine;
    var a, b := text[..j], text[j + 1..];
    assert forall i :: 0 <= i < |b| ==> b[i] == text[i + j + 1];
    Replacing.ReplaceBetween(a, text[j], b, line, [now]);
    CutAt(text, j, text[j]);
    CutAt(text, j, now);
    assert text[j := text[j]] == text;
  }

  lemma ChosenSnoc(front: seq<Choice>, c: Choice)
    requires DistinctChoices(front + [c])
    ensures Chosen(front, c.name) == None
    ensures forall k :: Chosen(front + [c], k) == if k == c.name then Some(c.winner) else Chosen(front, k)
  {
    var all := front + [c];
    assert all[..|front|] == front;
    assert forall i :: 0 <= i < |front| ==> front[i] == all[i] && all[i].name != all[|front|].name;
    ChosenOf(front, c.name);
  }

  /** One choice more, on a line: it keeps its key, and changes if it is the losing line. */
  lemma NextLineSnoc(
    own: map<string, string>, other: map<string, string>, winner: Side, front: seq<Choice>, c: Choice, line: string)
    requires Keyed(own) && Keyed(other) && DistinctChoices(front + [c])
    ensures var was, now := NextLine(own, other, winner, front, line), NextLine(own, other, winner, front + [c], line);
            && KeyOf(was) == KeyOf(line)
            && (KeyOf(line) == Some(c.name) ==> was == line)
            && now == if c.winner == winner && c.name in own && c.name in other && line == own[c.name]
                      then other[c.name] else was
  {
    hide KeyOf, Chosen;
    ChosenSnoc(front, c);
  }

  /** One choice more, on lines that keep their keys. */
  lemma NextLinesSnoc(
    own: map<string, string>, other: map<string, string>, winner: Side, front: seq<Choice>, c: Choice, text: Lines)
    requires OneLinePerKey(text) && Keyed(own) && Keyed(other) && DistinctChoices(front + [c])
    ensures var was, now := NextLines(own, other, winner, front, text), NextLines(own, other, winner, front + [c], text);
            now == if c.winner == winner && c.name in own && c.name in other
                   then ReplaceWholeLine(was, own[c.name], [other[c.name]]) else was
  {
    hide KeyOf, ReplaceWholeLine, NextLine, DistinctChoices;
    var was, now := NextLines(own, other, winner, front, text), NextLines(own, other, winner, front + [c], text);
    forall i | 0 <= i < |text|
      ensures KeyOf(was[i]) == KeyOf(text[i]) && (KeyOf(text[i]) == Some(c.name) ==> was[i] == text[i])
      ensures now[i] == if c.winner == winner && c.name in own && c.name in other && text[i] == own[c.name]
                        then other[c.name] else was[i]
    {
      NextLineSnoc(own, other, winner, front, c, text[i]);
    }
    if c.winner == winner && c.name in own && c.name in other {
      OneReplaced(was, text, now, own[c.name], other[c.name], c.name);
    } else {
      assert now == was;
    }
  }

  /** The line of a key, replaced where it stands whole. */
  lemma OneReplaced(was: Lines, text: Lines, now: Lines, line: string, next: string, key: string)
    requires OneLinePerKey(text) && KeyOf(line) == Some(key) && |was| == |text| == |now|
    requires forall i :: 0 <= i < |text| ==> KeyOf(was[i]) == KeyOf(text[i]) && (KeyOf(text[i]) == Some(key) ==> was[i] == text[i])
    requires forall i :: 0 <= i < |text| ==> now[i] == if text[i] == line then next else was[i]
    ensures now == ReplaceWholeLine(was, line, [next])
  {
    hide KeyOf, ReplaceWholeLine;
    if j :| 0 <= j < |text| && KeyOf(text[j]) == Some(key) {
      forall i | 0 <= i < |text| && i != j ensures was[i] != line && text[i] != line {
        assert i < j || j < i;
      }
      ReplaceOnly(was, j, line, next);
    } else {
      Replacing.ReplaceAbsent(was, line, [next]);
      assert now == was;
    }
  }

  lemma {:induction false} LosingIs(
    text: Lines, own: map<string, string>, other: map<string, string>, winner: Side, choices: seq<Choice>)
    requires OneLinePerKey(text) && Keyed(own) && Keyed(other) && DistinctChoices(choices)
    ensures Losing(text, own, other, winner, choices) == NextLines(own, other, winner, choices, text)
  {
    hide KeyOf, ReplaceWholeLine;
    if choices == [] {
      assert NextLines(own, other, winner, [], text) == text;
    } else {
      var n := |choices| - 1;
      assert choices == choices[..n] + [choices[n]];
      LosingIs(text, own, other, winner, choices[..n]);
      NextLinesSnoc(own, other, winner, choices[..n], choices[n], text);
    }
  }

  /** The map of the losing side, key by key. */
  lemma LostMap(own: map<string, string>, other: map<string, string>, winner: Side, choices: seq<Choice>, text: Lines, key: string)
    requires OneLinePerKey(text) && own == LineMap(text)
    requires Keyed(other) && forall k :: k in other ==> Strip(other[k]) == other[k]
    ensures Get(LineMap(NextLines(own, other, winner, choices, text)), key) ==
            if key in own && key in other && Chosen(choices, key) == Some(winner) && own[key] in text
            then Some(other[key]) else Get(own, key)
    ensures OneLinePerKey(NextLines(own, other, winner, choices, text))
  {
    hide KeyOf, LineMap, Strip;
    var next := NextLines(own, other, winner, choices, text);
    assert forall i :: 0 <= i < |text| ==> KeyOf(next[i]) == KeyOf(text[i]);
    LineMapIs(text, key);
    LineMapIs(next, key);
    if key in own {
      LineMapKeys(text, key);
      var i :| 0 <= i < |text| && KeyOf(text[i]) == Some(key) && own[key] == Strip(text[i]);
      LineMapAt(next, i);
      assert own[key] in text <==> text[i] == own[key];
      if key in other && Chosen(choices, key) == Some(winner) && text[i] == own[key] {
        assert next[i] == other[key];
      }
    }
  }

  /* ---- The lines pushed and pulled ---- */

  predicate NoRepeats(lines: seq<string>) {
    forall i, j :: 0 <= i < j < |lines| ==> lines[i] != lines[j]
  }

  /** `lines` are some of those `from` has and `into` lacks, each once. */
  ghost predicate Picks(lines: seq<string>, from: map<string, string>, into: map<string, string>) {
    NoRepeats(lines) && forall x :: x in lines ==> OnlyHas(from, into, x)
  }

  /** What a side holds under a key once these lines of the other's were brought to it. */
  function Brought(from: map<string, string>, into: map<string, string>, lines: seq<string>, k: string): Option<string> {
    if k in into then Some(into[k]) else if k in from && from[k] in lines then Some(from[k]) else None
  }

  lemma {:induction false} StripTailLines(text: Lines)
    ensures StripTail(text) <= text
    ensures forall i :: |StripTail(text)| <= i < |text| ==> text[i] == ""
  {
    if text != [] && text[|text| - 1] == "" {
      StripTailLines(text[..|text| - 1]);
    }
  }

  lemma EmptyLineHasNoKey()
    ensures KeyOf("") == None
  {
  }

  lemma AppendedKeys(text: Lines, kept: Lines, lines: seq<string>, from: map<string, string>)
    requires OneLinePerKey(text) && Picks(lines, from, LineMap(text)) && Keyed(from)
    requires kept <= text && forall i :: |kept| <= i < |text| ==> text[i] == ""
    ensures OneLinePerKey(kept + lines)
    ensures forall i :: 0 <= i < |lines| ==>
              var k := KeyOf(lines[i]);
              k.Some? && k.value in from && k.value !in LineMap(text) && from[k.value] == lines[i]
  {
    hide KeyOf, Strip, LineMap;
    forall i | 0 <= i < |lines|
      ensures var k := KeyOf(lines[i]);
              k.Some? && k.value in from && k.value !in LineMap(text) && from[k.value] == lines[i]
    {
      assert lines[i] in lines;
      var k :| k in from && k !in LineMap(text) && from[k] == lines[i];
    }
    forall i, j | 0 <= i < |kept| && 0 <= j < |lines| ensures KeyOf(kept[i]) != KeyOf(lines[j]) {
      assert kept[i] == text[i];
      LineMapIs(text, KeyOf(lines[j]).value);
    }
    forall i, j | 0 <= i < j < |kept| && KeyOf(kept[i]).Some? ensures KeyOf(kept[i]) != KeyOf(kept[j]) {
      assert kept[i] == text[i] && kept[j] == text[j];
    }
  }

  lemma AppendedKey(text: Lines, kept: Lines, lines: seq<string>, from: map<string, string>, k: string)
    requires OneLinePerKey(text) && Picks(lines, from, LineMap(text)) && Keyed(from)
    requires forall k :: k in from ==> Strip(from[k]) == from[k]
    requires kept <= text && forall i :: |kept| <= i < |text| ==> text[i] == ""
    ensures OneLinePerKey(kept + lines)
    ensures Get(LineMap(kept + lines), k) == Brought(from, LineMap(text), lines, k)
    ensures k in LineMap(text) ==> (LineMap(text)[k] in kept + lines <==> LineMap(text)[k] in text)
  {
    hide KeyOf, Strip, LineMap;
    var all := kept + lines;
    AppendedKeys(text, kept, lines, from);
    LineMapIs(text, k);
    LineMapIs(all, k);
    EmptyLineHasNoKey();
    if k in LineMap(text) {
      LineMapKeys(text, k);
      var i :| 0 <= i < |text| && KeyOf(text[i]) == Some(k) && LineMap(text)[k] == Strip(text[i]);
      assert i < |kept| && all[i] == text[i];
      LineMapAt(all, i);
      if LineMap(text)[k] in all {
        var j :| 0 <= j < |all| && all[j] == LineMap(text)[k];
        assert j == i;
      }
    } else if k in from && from[k] in lines {
      var i :| 0 <= i < |lines| && lines[i] == from[k];
      assert all[|kept| + i] == from[k];
      LineMapAt(all, |kept| + i);
    } else {
      forall i | 0 <= i < |all| ensures KeyOf(all[i]) != Some(k) {
        if i < |kept| {
          assert all[i] == text[i];
        } else {
          assert all[i] == lines[i - |kept|];
        }
      }
    }
  }

  /* ---- The sync ---- */

  /** The key's conflict was decided, and the losing line stands in its field exactly as the comparison shows it. */
  ghost predicate Resolved(
    im: map<string, string>, pm: map<string, string>, choices: seq<Choice>, instance: Lines, project: Lines, key: string)
  {
    && Clashes(im, pm, key) && Chosen(choices, key).Some?
    && if Chosen(choices, key).value == Instance then pm[key] in project else im[key] in instance
  }

  /** The line that wins. */
  ghost function Winner(im: map<string, string>, pm: map<string, string>, choices: seq<Choice>, key: string): string
    requires Clashes(im, pm, key) && Chosen(choices, key).Some?
  {
    if Chosen(choices, key).value == Instance then im[key] else pm[key]
  }

  /** Two fields without markers, one line per key: what a comparison is asked about. */
  predicate Comparable(instance: Lines, project: Lines) {
    && !HasPipConflicts(instance) && !HasPipConflicts(project)
    && OneLinePerKey(instance) && OneLinePerKey(project)
  }

  /** What a sync is given: lines of the comparison's lists, each at most once, and choices for names, each at most once. */
  ghost predicate Selected(instance: Lines, project: Lines, push: seq<string>, pull: seq<string>, choices: seq<Choice>) {
    var d := Compare(DepMap(instance), DepMap(project));
    && Comparable(instance, project) && DistinctChoices(choices)
    && NoRepeats(push) && (forall x :: x in push ==> x in d.onlyInstance)
    && NoRepeats(pull) && (forall x :: x in pull ==> x in d.onlyProject)
  }

  /** All there is to select: every line of either list, and a choice for each conflict. */
  ghost predicate FullSync(instance: Lines, project: Lines, push: seq<string>, pull: seq<string>, choices: seq<Choice>) {
    var d := Compare(DepMap(instance), DepMap(project));
    && Selected(instance, project, push, pull, choices)
    && (forall x :: x in d.onlyInstance ==> x in push) && (forall x :: x in d.onlyProject ==> x in pull)
    && (forall k :: ShowsClash(d, k) ==> Chosen(choices, k).Some?)
  }

  /** The same selection, said of the fields' own lines. */
  ghost predicate SelectedOf(instance: Lines, project: Lines, push: seq<string>, pull: seq<string>, choices: seq<Choice>) {
    var im, pm := LineMap(instance), LineMap(project);
    Comparable(instance, project) && DistinctChoices(choices) && Picks(push, im, pm) && Picks(pull, pm, im)
  }

  lemma SelectedIs(instance: Lines, project: Lines, push: seq<string>, pull: seq<string>, choices: seq<Choice>)
    requires Selected(instance, project, push, pull, choices)
    ensures SelectedOf(instance, project, push, pull, choices)
    ensures DepMap(instance) == LineMap(instance) && DepMap(project) == LineMap(project)
  {
    hide LineMap, Find, Compare, OnlyHas, Unmarked, Chosen;
    NoMarkersNothingCut(instance);
    NoMarkersNothingCut(project);
    CompareSays(DepMap(instance), DepMap(project));
  }

  lemma LineMapsAreKeyed(text: Lines)
    ensures Keyed(LineMap(text)) && forall k :: k in LineMap(text) ==> Strip(LineMap(text)[k]) == LineMap(text)[k]
  {
    hide Strip, KeyOf, LineMap;
    forall k | k in LineMap(text) { LineMapKeys(text, k); }
  }

  lemma PushedAndPulled(own: Lines, other: Lines, lines: seq<string>, key: string)
    requires OneLinePerKey(own) && OneLinePerKey(other) && Picks(lines, LineMap(other), LineMap(own))
    ensures var all := Appended(own, lines);
            && OneLinePerKey(all)
            && Get(LineMap(all), key) == Brought(LineMap(other), LineMap(own), lines, key)
            && (key in LineMap(own) ==> (LineMap(own)[key] in all <==> LineMap(own)[key] in own))
  {
    hide Strip, KeyOf, LineMap, Picks;
    LineMapsAreKeyed(other);
    StripTailLines(own);
    var kept := if lines == [] then own else StripTail(own);
    assert Appended(own, lines) == kept + lines;
    AppendedKey(own, kept, lines, LineMap(other), key);
  }

  /** What a side holds under a key after a sync. */
  lemma SyncedSide(
    own: Lines, other: Lines, ownLines: seq<string>, otherLines: seq<string>, choices: seq<Choice>, winner: Side, key: string)
    requires OneLinePerKey(own) && OneLinePerKey(other) && DistinctChoices(choices)
    requires Picks(ownLines, LineMap(other), LineMap(own)) && Picks(otherLines, LineMap(own), LineMap(other))
    ensures var all, om, rm := Appended(own, ownLines), LineMap(own), LineMap(other);
            var last := Losing(all, LineMap(all), LineMap(Appended(other, otherLines)), winner, choices);
            Get(LineMap(last), key) ==
            if key in om && key in rm && Chosen(choices, key) == Some(winner) && om[key] in own then Some(rm[key])
            else Brought(rm, om, ownLines, key)
  {
    hide Strip, KeyOf, LineMap, Losing, Appended, Chosen, Picks;
    var all, rest := Appended(own, ownLines), Appended(other, otherLines);
    PushedAndPulled(own, other, ownLines, key);
    PushedAndPulled(other, own, otherLines, key);
    LineMapsAreKeyed(all);
    LineMapsAreKeyed(rest);
    LosingIs(all, LineMap(all), LineMap(rest), winner, choices);
    LostMap(LineMap(all), LineMap(rest), winner, choices, all, key);
  }

  /** What both sides hold under a key once the selection was applied. */
  lemma SyncedKey(instance: Lines, project: Lines, push: seq<string>, pull: seq<string>, choices: seq<Choice>, key: string)
    requires SelectedOf(instance, project, push, pull, choices)
    ensures var im, pm := LineMap(instance), LineMap(project);
            var inst, proj := Appended(instance, pull), Appended(project, push);
            var i := Get(LineMap(Losing(inst, LineMap(inst), LineMap(proj), Project, choices)), key);
            var p := Get(LineMap(Losing(proj, LineMap(proj), LineMap(inst), Instance, choices)), key);
            if Resolved(im, pm, choices, instance, project, key) then i == p == Some(Winner(im, pm, choices, key))
            else i == Brought(pm, im, pull, key) && p == Brought(im, pm, push, key)
  {
    hide Strip, KeyOf, LineMap, Losing, Appended, Chosen, HasPipConflicts, OneLinePerKey, Picks;
    SyncedSide(instance, project, pull, push, choices, Project, key);
    SyncedSide(project, instance, push, pull, choices, Instance, key);
  }

  /** What a selection leaves to be synced: what was not selected, and the conflicts
      whose losing line was not there to replace. A decided key holds the winner's line
      on both sides, every other its own, or the line brought to it. */
  ghost predicate Leaves(
    im: map<string, string>, pm: map<string, string>, push: seq<string>, pull: seq<string>, choices: seq<Choice>,
    instance: Lines, project: Lines, i: map<string, string>, p: map<string, string>)
  {
    var before, after := Compare(im, pm), Compare(i, p);
    && (forall x :: x in after.onlyInstance <==> x in before.onlyInstance && x !in push)
    && (forall x :: x in after.onlyProject <==> x in before.onlyProject && x !in pull)
    && (forall k :: ShowsClash(after, k) <==> ShowsClash(before, k) && !Resolved(im, pm, choices, instance, project, k))
    && (forall k :: if Resolved(im, pm, choices, instance, project, k)
                    then Get(i, k) == Get(p, k) == Some(Winner(im, pm, choices, k))
                    else Get(i, k) == Brought(pm, im, pull, k) && Get(p, k) == Brought(im, pm, push, k))
  }

  /** The keys of a side alone, before and after. */
  lemma OnlyLeft(
    a: map<string, string>, b: map<string, string>, lines: seq<string>, x: map<string, string>, y: map<string, string>)
    requires Keyed(a)
    requires forall k :: k in a && k !in b ==> Get(x, k) == Some(a[k]) && (k in y <==> a[k] in lines)
    requires forall k :: k in b ==> k in y
    requires forall k :: k !in a && k !in b ==> k !in x
    ensures forall line :: OnlyHas(x, y, line) <==> OnlyHas(a, b, line) && line !in lines
  {
    hide KeyOf;
    forall line ensures OnlyHas(x, y, line) <==> OnlyHas(a, b, line) && line !in lines {
      if OnlyHas(x, y, line) {
        var k :| k in x && k !in y && x[k] == line;
        assert k in a && k !in b;
      }
      if OnlyHas(a, b, line) && line !in lines {
        var k :| k in a && k !in b && a[k] == line;
        assert k in x && k !in y && x[k] == line;
      }
    }
  }

  lemma SelectionOnLines(instance: Lines, project: Lines, push: seq<string>, pull: seq<string>, choices: seq<Choice>)
    requires SelectedOf(instance, project, push, pull, choices)
    ensures var inst, proj := Appended(instance, pull), Appended(project, push);
            var i := LineMap(Losing(inst, LineMap(inst), LineMap(proj), Project, choices));
            var p := LineMap(Losing(proj, LineMap(proj), LineMap(inst), Instance, choices));
            Leaves(LineMap(instance), LineMap(project), push, pull, choices, instance, project, i, p)
  {
    hide Strip, KeyOf, LineMap, Losing, Appended, Chosen, Comparable, Picks, Compare, ShowsClash, OnlyHas, Keyed;
    var im, pm := LineMap(instance), LineMap(project);
    var inst, proj := Appended(instance, pull), Appended(project, push);
    var i := LineMap(Losing(inst, LineMap(inst), LineMap(proj), Project, choices));
    var p := LineMap(Losing(proj, LineMap(proj), LineMap(inst), Instance, choices));
    LineMapsAreKeyed(instance);
    LineMapsAreKeyed(project);
    CompareSays(im, pm);
    CompareSays(i, p);
    forall k
      ensures if Resolved(im, pm, choices, instance, project, k)
              then Get(i, k) == Get(p, k) == Some(Winner(im, pm, choices, k))
              else Get(i, k) == Brought(pm, im, pull, k) && Get(p, k) == Brought(im, pm, push, k)
      ensures k in im && k !in pm ==> Get(i, k) == Some(im[k]) && (k in p <==> im[k] in push)
      ensures k in pm && k !in im ==> Get(p, k) == Some(pm[k]) && (k in i <==> pm[k] in pull)
      ensures (k in im ==> k in i) && (k in pm ==> k in p) && (k !in im && k !in pm ==> k !in i && k !in p)
      ensures Clashes(i, p, k) <==> Clashes(im, pm, k) && !Resolved(im, pm, choices, instance, project, k)
    {
      SyncedKey(instance, project, push, pull, choices, k);
    }
    OnlyLeft(im, pm, push, i, p);
    OnlyLeft(pm, im, pull, p, i);
  }

  /* ---- No sync writes a marker ---- */

  lemma {:induction false} LStripIsTail(s: string)
    ensures exists a :: 0 <= a <= |s| && LStrip(s) == s[a..]
  {
    if s != "" && Blank(s[0]) {
      LStripIsTail(s[1..]);
      var a :| 0 <= a <= |s[1..]| && LStrip(s[1..]) == s[1..][a..];
      assert s[1..][a..] == s[a + 1..];
    } else {
      assert s == s[0..];
    }
  }

  lemma PartHoldsNoMore(s: string, a: nat, t: string, pat: string)
    requires a <= |s| && t <= s[a..] && Contains(t, pat)
    ensures Contains(s, pat)
  {
    hide Find;
    var k := Find(t, pat);
    assert t[k..k + |pat|] == s[a + k..a + k + |pat|];
    FindIsFirst(s, pat, a + k);
  }

  lemma StripHoldsNoMore(s: string, pat: string)
    requires Contains(Strip(s), pat)
    ensures Contains(s, pat)
  {
    hide LStrip, RStrip, Find, Contains;
    LStripIsTail(s);
    var a :| 0 <= a <= |s| && LStrip(s) == s[a..];
    RStripShape(LStrip(s));
    PartHoldsNoMore(s, a, Strip(s), pat);
  }

  lemma ValuesHoldNoMarker(text: Lines, key: string)
    requires !HasPipConflicts(text) && key in LineMap(text)
    ensures !Contains(LineMap(text)[key], HEAD)
  {
    hide Strip, KeyOf, LineMap, Find;
    LineMapIs(text, key);
    var i :| 0 <= i < |text| && KeyOf(text[i]) == Some(key) && LineMap(text)[key] == Strip(text[i]);
    if Contains(Strip(text[i]), HEAD) {
      StripHoldsNoMore(text[i], HEAD);
    }
  }

  lemma AppendedHoldsNoMarker(own: Lines, other: Lines, lines: seq<string>)
    requires !HasPipConflicts(own) && !HasPipConflicts(other) && Picks(lines, LineMap(other), LineMap(own))
    ensures !HasPipConflicts(Appended(own, lines))
  {
    hide Strip, KeyOf, LineMap, Find;
    StripTailLines(own);
    forall i | 0 <= i < |lines| ensures !Contains(lines[i], HEAD) {
      assert lines[i] in lines;
      var k :| k in LineMap(other) && k !in LineMap(own) && LineMap(other)[k] == lines[i];
      ValuesHoldNoMarker(other, k);
    }
    var kept := if lines == [] then own else StripTail(own);
    assert forall i :: 0 <= i < |kept| ==> kept[i] == own[i];
  }

  lemma LosingHoldsNoMarker(text: Lines, rest: Lines, winner: Side, choices: seq<Choice>)
    requires !HasPipConflicts(text) && !HasPipConflicts(rest) && OneLinePerKey(text) && DistinctChoices(choices)
    ensures !HasPipConflicts(Losing(text, LineMap(text), LineMap(rest), winner, choices))
  {
    hide Strip, KeyOf, LineMap, Find, Losing, Chosen;
    LineMapsAreKeyed(text);
    LineMapsAreKeyed(rest);
    LosingIs(text, LineMap(text), LineMap(rest), winner, choices);
    var next := NextLines(LineMap(text), LineMap(rest), winner, choices, text);
    forall i | 0 <= i < |text| ensures !Contains(next[i], HEAD) {
      if next[i] != text[i] {
        ValuesHoldNoMarker(rest, KeyOf(text[i]).value);
      }
    }
  }

  /** A line after a sync: as it was, or the winner's where the losing line stood. */
  ghost predicate WonOrUntouched(own: Lines, other: Lines, was: Lines, now: Lines, winner: Side, choices: seq<Choice>) {
    && |now| == |was|
    && forall i :: 0 <= i < |was| && now[i] != was[i] ==>
         && KeyOf(was[i]).Some?
         && var k := KeyOf(was[i]).value;
            Chosen(choices, k) == Some(winner) && k in LineMap(other) && now[i] == LineMap(other)[k]
  }

  /** A line as it was, or the winner's in place of the losing one. */
  ghost predicate Won(own: string, other: Lines, now: string, winner: Side, choices: seq<Choice>) {
    now != own ==>
      && KeyOf(own).Some?
      && var k := KeyOf(own).value;
         Chosen(choices, k) == Some(winner) && k in LineMap(other) && now == LineMap(other)[k]
  }

  /** A field after a sync, from the field before: its first `n` lines in their
      places, each untouched or won, then the lines brought to it. Only empty lines at
      the end are missing, all of them, and none if nothing was brought. */
  ghost predicate InPlace(
    own: Lines, other: Lines, lines: seq<string>, now: Lines, winner: Side, choices: seq<Choice>, n: nat)
  {
    && n <= |own| && |now| == n + |lines|
    && (lines == [] ==> n == |own|)
    && (lines != [] ==> (forall i :: n <= i < |own| ==> own[i] == "") && (n > 0 ==> own[n - 1] != ""))
    && (forall i :: 0 <= i < n ==> Won(own[i], other, now[i], winner, choices))
    && (forall i :: n <= i < |now| ==> now[i] == lines[i - n])
  }

  /** How many of a field's lines stay when these are brought to it. */
  function Stay(own: Lines, lines: seq<string>): nat {
    if lines == [] then |own| else |StripTail(own)|
  }

  lemma StaysInPlace(own: Lines, other: Lines, lines: seq<string>, now: Lines, winner: Side, choices: seq<Choice>)
    requires WonOrUntouched(own, other, Appended(own, lines), now, winner, choices)
    requires Picks(lines, LineMap(other), LineMap(own)) && Keyed(LineMap(other))
    ensures InPlace(own, other, lines, now, winner, choices, Stay(own, lines))
  {
    hide KeyOf, LineMap, Chosen;
    StripTailIs(own);
    var n, was := Stay(own, lines), Appended(own, lines);
    assert |was| == n + |lines|;
    forall i | 0 <= i < n ensures Won(own[i], other, now[i], winner, choices) {
      assert was[i] == own[i];
    }
    forall i | n <= i < |now| ensures now[i] == lines[i - n] {
      assert was[i] == lines[i - n] && lines[i - n] in lines;
      var k :| k in LineMap(other) && k !in LineMap(own) && LineMap(other)[k] == lines[i - n];
      assert KeyOf(was[i]) == Some(k);
    }
  }

  /** Whatever is selected, a sync leaves exactly what was not selected and what it
      could not replace, keeps every other line where it was, and writes no marker. */
  lemma SyncLeavesTheRest(instance: Lines, project: Lines, push: seq<string>, pull: seq<string>, choices: seq<Choice>)
    requires Selected(instance, project, push, pull, choices)
    ensures var im, pm := DepMap(instance), DepMap(project);
            var (inst, proj) := Synced(instance, project, push, pull, choices);
            && Leaves(im, pm, push, pull, choices, instance, project, DepMap(inst), DepMap(proj))
            && (exists n :: InPlace(instance, project, pull, inst, Project, choices, n))
            && (exists n :: InPlace(project, instance, push, proj, Instance, choices, n))
            && !HasPipConflicts(inst) && !HasPipConflicts(proj)
  {
    hide Strip, KeyOf, LineMap, Find, Losing, Chosen, Appended, HasPipConflicts, OneLinePerKey, Picks, Unmarked, Leaves, Selected, WonOrUntouched, InPlace, Keyed;
    SelectedIs(instance, project, push, pull, choices);
    var all, rest := Appended(instance, pull), Appended(project, push);
    SyncedText(instance, project, pull, push, choices, Project);
    SyncedText(project, instance, push, pull, choices, Instance);
    NoMarkersNothingCut(all);
    NoMarkersNothingCut(rest);
    var (inst, proj) := Synced(instance, project, push, pull, choices);
    NoMarkersNothingCut(inst);
    NoMarkersNothingCut(proj);
    SelectionOnLines(instance, project, push, pull, choices);
    LineMapsAreKeyed(instance);
    LineMapsAreKeyed(project);
    StaysInPlace(instance, project, pull, inst, Project, choices);
    StaysInPlace(project, instance, push, proj, Instance, choices);
  }

  /** A sync that pushes, pulls and chooses everything converges: nothing is left on
      one side only, and a conflict exactly when its losing line was not there to replace. */
  lemma FullSyncConverges(instance: Lines, project: Lines, push: seq<string>, pull: seq<string>, choices: seq<Choice>)
    requires FullSync(instance, project, push, pull, choices)
    ensures var im, pm := DepMap(instance), DepMap(project);
            var (inst, proj) := Synced(instance, project, push, pull, choices);
            var after := Compare(DepMap(inst), DepMap(proj));
            && after.onlyInstance == [] && after.onlyProject == []
            && (forall k :: Clashes(im, pm, k) ==> Chosen(choices, k).Some?)
            && (forall k :: ShowsClash(after, k) <==> Clashes(im, pm, k) && !Resolved(im, pm, choices, instance, project, k))
            && Leaves(im, pm, push, pull, choices, instance, project, DepMap(inst), DepMap(proj))
            && (exists n :: InPlace(instance, project, pull, inst, Project, choices, n))
            && (exists n :: InPlace(project, instance, push, proj, Instance, choices, n))
            && !HasPipConflicts(inst) && !HasPipConflicts(proj)
  {
    hide Compare, Synced, DepMap, Chosen, Resolved, Comparable, ShowsClash, InPlace, HasPipConflicts, Appended;
    SyncLeavesTheRest(instance, project, push, pull, choices);
    CompareSays(DepMap(instance), DepMap(project));
    var (inst, proj) := Synced(instance, project, push, pull, choices);
    NoneLeft(Compare(DepMap(inst), DepMap(proj)).onlyInstance);
    NoneLeft(Compare(DepMap(inst), DepMap(proj)).onlyProject);
  }

  lemma NoneLeft(lines: seq<string>)
    ensures (forall x :: x !in lines) ==> lines == []
  {
    Order.HasFirst(lines);
  }

  lemma SyncedText(
    own: Lines, other: Lines, ownLines: seq<string>, otherLines: seq<string>, choices: seq<Choice>, winner: Side)
    requires Comparable(own, other) && DistinctChoices(choices)
    requires Picks(ownLines, LineMap(other), LineMap(own)) && Picks(otherLines, LineMap(own), LineMap(other))
    ensures var all, rest := Appended(own, ownLines), Appended(other, otherLines);
            var last := Losing(all, LineMap(all), LineMap(rest), winner, choices);
            && !HasPipConflicts(all) && !HasPipConflicts(last)
            && WonOrUntouched(own, other, all, last, winner, choices)
  {
    hide Strip, KeyOf, LineMap, Find, Losing, Chosen, Appended, HasPipConflicts, OneLinePerKey, Picks;
    var all, rest := Appended(own, ownLines), Appended(other, otherLines);
    AppendedHoldsNoMarker(own, other, ownLines);
    AppendedHoldsNoMarker(other, own, otherLines);
    PushedAndPulled(own, other, ownLines, "");
    PushedAndPulled(other, own, otherLines, "");
    LosingHoldsNoMarker(all, rest, winner, choices);
    LineMapsAreKeyed(all);
    LineMapsAreKeyed(rest);
    LosingIs(all, LineMap(all), LineMap(rest), winner, choices);
    forall k
      ensures k in LineMap(all) && k in LineMap(rest) && LineMap(all)[k] != LineMap(rest)[k] ==>
                k in LineMap(other) && LineMap(rest)[k] == LineMap(other)[k]
    {
      PushedAndPulled(own, other, ownLines, k);
      PushedAndPulled(other, own, otherLines, k);
    }
  }

  /** The choices are applied to what was pushed: a pushed line of a key the project
      lacked loses to the instance's, when the instance is to win. */
  lemma ChoicesSeeWhatWasPushed(instance: Lines, project: Lines, line: string, key: string)
    requires Comparable(instance, project) && !Contains(line, HEAD)
    requires KeyOf(line) == Some(key) && Strip(line) == line && key in DepMap(instance) && key !in DepMap(project)
    ensures Synced(instance, project, [line], [], [Choice(key, Instance)]).1 ==
            StripTail(project) + [DepMap(instance)[key]]
  {
    hide Strip, KeyOf, LineMap, Find, Unmarked, ReplaceWholeLine, OneLinePerKey;
    var choices, all := [Choice(key, Instance)], StripTail(project) + [line];
    NoMarkersNothingCut(instance);
    NoMarkersNothingCut(project);
    StripTailIs(project);
    var n := |StripTail(project)|;
    assert !HasPipConflicts(all) by {
      assert forall i :: 0 <= i < n ==> all[i] == project[i];
    }
    NoMarkersNothingCut(all);
    LineMapIs(project, key);
    forall i | 0 <= i < n ensures KeyOf(all[i]) != Some(key) && all[i] != line {
      assert all[i] == project[i];
    }
    LastLineCounts(all, n, key);
    Replacing.ReplacesFirst(all, line, [DepMap(instance)[key]], n);
    assert all[..n] == StripTail(project) && all[n + 1..] == [];
    assert StripTail(project) + [DepMap(instance)[key]] + [] == StripTail(project) + [DepMap(instance)[key]];
    LosingSnoc(all, DepMap(all), DepMap(instance), Instance, choices, 0);
    assert choices[..0] == [] && choices[..1] == choices;
    assert all[n] == line && Get(LineMap(all), key) == Some(line);
    assert Losing(all, DepMap(all), DepMap(instance), Instance, choices) ==
           ReplaceWholeLine(all, line, [DepMap(instance)[key]]);
  }
}
