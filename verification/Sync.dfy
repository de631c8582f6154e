/** Comparing an instance's dependencies with its project's, and the sync that follows. */
module Sync {
  import opened Text
  import opened Requirements
  import opened Order

  /** The key a dependency line is compared under; none for a blank line or a comment. */
  function KeyOf(line: string): Option<string> {
    var stripped := Strip(line);
    if stripped == "" || stripped[0] == '#' then None
    else if ParseReq(stripped).Some? then Some(ParseReq(stripped).value.name)
    else Some(Lower(stripped))
  }

  /** What `CONFLICT_RE.sub('', text)` leaves, line by line. */
  function Unmarked(text: Lines): Lines {
    var items := Segments(text);
    seq(|items|, i requires 0 <= i < |items| => Remainder(items[i]))
  }

  /** The lines outside the markers, and of a marker what precedes it on its first line. */
  lemma UnmarkedIs(text: Lines)
    ensures |Unmarked(text)| == |Segments(text)|
    ensures forall i :: 0 <= i < |Segments(text)| ==>
              var it := Segments(text)[i]; Unmarked(text)[i] == if it.Plain? then it.line else it.pre
  {
  }

  function PutLine(m: map<string, string>, line: string): map<string, string> {
    if KeyOf(line).Some? then m[KeyOf(line).value := Strip(line)] else m
  }

  /** A later line of the same key replaces an earlier one. */
  function LineMap(lines: Lines): map<string, string> {
    if lines == [] then map[] else PutLine(LineMap(lines[..|lines| - 1]), lines[|lines| - 1])
  }

  function DepMap(text: Lines): map<string, string> {
    LineMap(Unmarked(text))
  }

  /** A blank line has no key, nor has a comment; a requirement's is its package,
      any other line's the line in lower case. */
  lemma KeyIs(line: string)
    ensures KeyOf(line).None? <==> Strip(line) == "" || Strip(line)[0] == '#'
    ensures KeyOf(line).Some? ==>
              if ParseReq(line).Some? then KeyOf(line).value == ParseReq(line).value.name
              else LowerCase(KeyOf(line).value, Strip(line))
  {
    hide ParseReq, Strip;
    StripKeepsReq(line);
    LowerIs(Strip(line));
  }

  /** The last line of a key counts. */
  lemma {:induction false} LastLineCounts(lines: Lines, i: nat, key: string)
    requires i < |lines| && KeyOf(lines[i]) == Some(key)
    requires forall j :: i < j < |lines| ==> KeyOf(lines[j]) != Some(key)
    ensures Get(LineMap(lines), key) == Some(Strip(lines[i]))
  {
    hide KeyOf, Strip;
    if i < |lines| - 1 {
      LastLineCounts(lines[..|lines| - 1], i, key);
    }
  }

  method ParseDepLines(text: Lines) returns (result: map<string, string>)
    ensures result == DepMap(text)
  {
    var clean := Unmarked(text);
    result := map[];
    for i := 0 to |clean|
      invariant result == LineMap(clean[..i])
    {
      assert clean[..i + 1][..i] == clean[..i];
      var stripped := Strip(clean[i]);
      if stripped == "" || stripped[0] == '#' {
        continue;
      }
      var parsed := ParseReq(stripped);
      if parsed.Some? {
        result := result[parsed.value.name := stripped];
      } else {
        result := result[Lower(stripped) := stripped];
      }
    }
    assert clean[..|clean|] == clean;
  }

  /** A conflict of a comparison: the key, and the line of either side. */
  datatype Clash = Clash(name: string, instanceLine: string, projectLine: string)

  datatype Diff = Diff(
    onlyInstance: seq<string>, onlyProject: seq<string>, conflicts: seq<Clash>, common: seq<string>)

  /** The comparison with one key more in the list its lines put it in. */
  function Filed(d: Diff, inst: map<string, string>, proj: map<string, string>, key: string): Diff {
    if key in inst && key in proj then
      if inst[key] == proj[key] then d.(common := d.common + [inst[key]])
      else d.(conflicts := d.conflicts + [Clash(key, inst[key], proj[key])])
    else if key in inst then d.(onlyInstance := d.onlyInstance + [inst[key]])
    else if key in proj then d.(onlyProject := d.onlyProject + [proj[key]])
    else d
  }

  function CompareOver(inst: map<string, string>, proj: map<string, string>, keys: seq<string>): Diff {
    if keys == [] then Diff([], [], [], [])
    else Filed(CompareOver(inst, proj, keys[..|keys| - 1]), inst, proj, keys[|keys| - 1])
  }

  /** The comparison, key by key in order. */
  ghost function Compare(inst: map<string, string>, proj: map<string, string>): Diff {
    CompareOver(inst, proj, Sorted(inst.Keys + proj.Keys))
  }

  lemma CompareSnoc(inst: map<string, string>, proj: map<string, string>, keys: seq<string>, i: nat)
    requires i < |keys|
    ensures CompareOver(inst, proj, keys[..i + 1]) == Filed(CompareOver(inst, proj, keys[..i]), inst, proj, keys[i])
  {
    assert keys[..i + 1][..i] == keys[..i];
  }

  lemma CompareNone(inst: map<string, string>, proj: map<string, string>, keys: seq<string>)
    ensures CompareOver(inst, proj, keys[..0]) == Diff([], [], [], [])
  {
  }

  method CompareDeps(instance: Lines, project: Lines) returns (d: Diff)
    ensures d == Compare(DepMap(instance), DepMap(project))
  {
    hide DepMap, CompareOver, Ascending;
    var inst := ParseDepLines(instance);
    var proj := ParseDepLines(project);
    var keys := Sort(inst.Keys + proj.Keys);
    d := Diff([], [], [], []);
    CompareNone(inst, proj, keys);
    for i := 0 to |keys|
      invariant d == CompareOver(inst, proj, keys[..i])
    {
      CompareSnoc(inst, proj, keys, i);
      var key := keys[i];
      assert key in keys;
      if key in inst && key in proj {
        if inst[key] == proj[key] {
          d := d.(common := d.common + [inst[key]]);
        } else {
          d := d.(conflicts := d.conflicts + [Clash(key, inst[key], proj[key])]);
        }
      } else if key in inst {
        d := d.(onlyInstance := d.onlyInstance + [inst[key]]);
      } else {
        d := d.(onlyProject := d.onlyProject + [proj[key]]);
      }
    }
    assert keys[..|keys|] == keys;
  }

  /* ---- What a comparison says ---- */

  /** `line` is what `a` has under a key that `b` lacks. */
  predicate OnlyHas(a: map<string, string>, b: map<string, string>, line: string) {
    exists k :: k in a && k !in b && a[k] == line
  }

  predicate Clashes(a: map<string, string>, b: map<string, string>, k: string) {
    k in a && k in b && a[k] != b[k]
  }

  predicate ShowsClash(d: Diff, k: string) {
    exists c :: c in d.conflicts && c.name == k
  }

  ghost predicate SaysOnly(list: seq<string>, a: map<string, string>, b: map<string, string>, keys: seq<string>) {
    forall x :: x in list <==> exists k :: k in keys && k in a && k !in b && a[k] == x
  }

  ghost predicate SaysCommon(list: seq<string>, a: map<string, string>, b: map<string, string>, keys: seq<string>) {
    forall x :: x in list <==> exists k :: k in keys && k in a && k in b && a[k] == b[k] == x
  }

  ghost predicate SaysClashes(list: seq<Clash>, a: map<string, string>, b: map<string, string>, keys: seq<string>) {
    forall c :: c in list <==> c.name in keys && Clashes(a, b, c.name) && c == Clash(c.name, a[c.name], b[c.name])
  }

  ghost predicate SaysSoFar(d: Diff, a: map<string, string>, b: map<string, string>, keys: seq<string>) {
    && SaysOnly(d.onlyInstance, a, b, keys) && SaysOnly(d.onlyProject, b, a, keys)
    && SaysCommon(d.common, a, b, keys) && SaysClashes(d.conflicts, a, b, keys)
  }

  lemma OnlyMore(list: seq<string>, a: map<string, string>, b: map<string, string>, keys: seq<string>, key: string)
    requires SaysOnly(list, a, b, keys)
    ensures SaysOnly(if key in a && key !in b then list + [a[key]] else list, a, b, keys + [key])
  {
    assert forall k :: k in keys + [key] <==> k in keys || k == key;
  }

  lemma CommonMore(list: seq<string>, a: map<string, string>, b: map<string, string>, keys: seq<string>, key: string)
    requires SaysCommon(list, a, b, keys)
    ensures SaysCommon(if key in a && key in b && a[key] == b[key] then list + [a[key]] else list, a, b, keys + [key])
  {
    assert forall k :: k in keys + [key] <==> k in keys || k == key;
  }

  lemma ClashesMore(list: seq<Clash>, a: map<string, string>, b: map<string, string>, keys: seq<string>, key: string)
    requires SaysClashes(list, a, b, keys)
    ensures SaysClashes(if Clashes(a, b, key) then list + [Clash(key, a[key], b[key])] else list, a, b, keys + [key])
  {
    assert forall k :: k in keys + [key] <==> k in keys || k == key;
  }

  lemma FiledSays(d: Diff, a: map<string, string>, b: map<string, string>, keys: seq<string>, key: string)
    requires SaysSoFar(d, a, b, keys)
    ensures SaysSoFar(Filed(d, a, b, key), a, b, keys + [key])
  {
    hide SaysOnly, SaysCommon, SaysClashes;
    OnlyMore(d.onlyInstance, a, b, keys, key);
    OnlyMore(d.onlyProject, b, a, keys, key);
    CommonMore(d.common, a, b, keys, key);
    ClashesMore(d.conflicts, a, b, keys, key);
  }

  lemma {:induction false} CompareOverSays(a: map<string, string>, b: map<string, string>, keys: seq<string>)
    ensures SaysSoFar(CompareOver(a, b, keys), a, b, keys)
  {
    hide SaysSoFar, Filed;
    if keys == [] {
      NothingSaid(a, b);
    } else {
      var n := |keys| - 1;
      CompareOverSays(a, b, keys[..n]);
      FiledSays(CompareOver(a, b, keys[..n]), a, b, keys[..n], keys[n]);
      assert keys[..n] + [keys[n]] == keys;
    }
  }

  lemma NothingSaid(a: map<string, string>, b: map<string, string>)
    ensures SaysSoFar(Diff([], [], [], []), a, b, [])
  {
  }

  /** Every key of either side is in one list, with its lines, and nothing else is in any. */
  lemma CompareSays(a: map<string, string>, b: map<string, string>)
    ensures var d := Compare(a, b);
            && (forall x :: x in d.onlyInstance <==> OnlyHas(a, b, x))
            && (forall x :: x in d.onlyProject <==> OnlyHas(b, a, x))
            && (forall x :: x in d.common <==> exists k :: k in a && k in b && a[k] == b[k] == x)
            && (forall c :: c in d.conflicts <==> Clashes(a, b, c.name) && c == Clash(c.name, a[c.name], b[c.name]))
            && (forall k :: ShowsClash(d, k) <==> Clashes(a, b, k))
  {
    var keys, d := Sorted(a.Keys + b.Keys), Compare(a, b);
    CompareOverSays(a, b, keys);
    assert forall k :: k in keys <==> k in a || k in b;
    forall k ensures ShowsClash(d, k) <==> Clashes(a, b, k) {
      if Clashes(a, b, k) {
        assert Clash(k, a[k], b[k]) in d.conflicts;
      }
    }
  }

  /** `list` holds what `m` has under these keys, in their order. */
  predicate ListsIn(list: seq<string>, m: map<string, string>, keys: seq<string>) {
    && |list| == |keys| && Ascending(keys)
    && forall i :: 0 <= i < |keys| ==> keys[i] in m && list[i] == m[keys[i]]
  }

  lemma ListsMore(list: seq<string>, m: map<string, string>, keys: seq<string>, key: string)
    requires ListsIn(list, m, keys) && key in m && forall k :: k in keys ==> Before(k, key)
    ensures ListsIn(list + [m[key]], m, keys + [key])
  {
    hide Before;
    var all := keys + [key];
    forall i, j | 0 <= i < j < |all| ensures Before(all[i], all[j]) {
      if j == |keys| {
        assert keys[i] in keys;
      }
    }
  }

  lemma {:induction false} CompareOverLists(a: map<string, string>, b: map<string, string>, keys: seq<string>)
    returns (inst: seq<string>, proj: seq<string>, both: seq<string>)
    requires Ascending(keys)
    ensures var d := CompareOver(a, b, keys);
            && ListsIn(d.onlyInstance, a, inst) && ListsIn(d.onlyProject, b, proj) && ListsIn(d.common, a, both)
            && forall i, j :: 0 <= i < j < |d.conflicts| ==> Before(d.conflicts[i].name, d.conflicts[j].name)
    ensures forall k :: k in inst || k in proj || k in both ==> k in keys
  {
    hide Before, ListsIn;
    inst, proj, both := [], [], [];
    if keys == [] {
      NothingListed(a);
      NothingListed(b);
    } else {
      var n := |keys| - 1;
      inst, proj, both := CompareOverLists(a, b, keys[..n]);
      var d, key := CompareOver(a, b, keys[..n]), keys[n];
      assert forall k :: k in keys[..n] ==> Before(k, key);
      if key in a && key in b && a[key] == b[key] {
        ListsMore(d.common, a, both, key);
        both := both + [key];
      } else if key in a && key !in b {
        ListsMore(d.onlyInstance, a, inst, key);
        inst := inst + [key];
      } else if key in b && key !in a {
        ListsMore(d.onlyProject, b, proj, key);
        proj := proj + [key];
      } else if key in a && key in b {
        CompareOverSays(a, b, keys[..n]);
        assert forall c :: c in d.conflicts ==> Before(c.name, key);
        assert forall i :: 0 <= i < |d.conflicts| ==> d.conflicts[i] in d.conflicts;
      }
    }
  }

  lemma NothingListed(m: map<string, string>)
    ensures ListsIn([], m, [])
  {
  }

  /** Every list is in the order of its keys, each key once. */
  lemma CompareInOrder(a: map<string, string>, b: map<string, string>)
    returns (inst: seq<string>, proj: seq<string>, both: seq<string>)
    ensures var d := Compare(a, b);
            && ListsIn(d.onlyInstance, a, inst) && ListsIn(d.onlyProject, b, proj) && ListsIn(d.common, a, both)
            && forall i, j :: 0 <= i < j < |d.conflicts| ==> Before(d.conflicts[i].name, d.conflicts[j].name)
  {
    inst, proj, both := CompareOverLists(a, b, Sorted(a.Keys + b.Keys));
  }

  /* ---- Applying ---- */

  datatype Side = Instance | Project
  datatype Choice = Choice(name: string, winner: Side)

  function Appended(text: Lines, lines: seq<string>): Lines {
    if lines == [] then text else StripTail(text) + lines
  }

  /** The lines of one side, once it lost the choices `winner` won. */
  function Losing(text: Lines, own: map<string, string>, other: map<string, string>, winner: Side, choices: seq<Choice>)
    : Lines
  {
    if choices == [] then text
    else
      var c, before := choices[|choices| - 1], Losing(text, own, other, winner, choices[..|choices| - 1]);
      if c.winner == winner && c.name in own && c.name in other
      then ReplaceWholeLine(before, own[c.name], [other[c.name]]) else before
  }

  /** Both fields after a sync: the instance's, then the project's. */
  function Synced(instance: Lines, project: Lines, push: seq<string>, pull: seq<string>, choices: seq<Choice>)
    : (Lines, Lines)
  {
    var inst, proj := Appended(instance, pull), Appended(project, push);
    (Losing(inst, DepMap(inst), DepMap(proj), Project, choices),
     Losing(proj, DepMap(proj), DepMap(inst), Instance, choices))
  }

  /** A project or an instance: the record whose dependency field a sync writes. */
  class Owner {
    var deps: Lines

    constructor (deps: Lines)
      ensures this.deps == deps
    {
      this.deps := deps;
    }
  }

  lemma LosingSnoc(
    text: Lines, own: map<string, string>, other: map<string, string>, winner: Side, choices: seq<Choice>, i: nat)
    requires i < |choices|
    ensures var c, before := choices[i], Losing(text, own, other, winner, choices[..i]);
            Losing(text, own, other, winner, choices[..i + 1]) ==
            if c.winner == winner && c.name in own && c.name in other
            then ReplaceWholeLine(before, own[c.name], [other[c.name]]) else before
  {
    assert choices[..i + 1][..i] == choices[..i];
  }

  /** One dependency field of `apply_sync`. */
  method ApplySync(instance: Owner, project: Owner, push: seq<string>, pull: seq<string>, choices: seq<Choice>)
    requires instance != project
    modifies instance, project
    ensures (instance.deps, project.deps) == Synced(old(instance.deps), old(project.deps), push, pull, choices)
  {
    if push != [] {
      project.deps := StripTail(project.deps) + push;
    }
    if pull != [] {
      instance.deps := StripTail(instance.deps) + pull;
    }
    ghost var inst, proj := instance.deps, project.deps;
    if choices != [] {
      var instMap := ParseDepLines(instance.deps);
      var projMap := ParseDepLines(project.deps);
      for i := 0 to |choices|
        invariant instance.deps == Losing(inst, instMap, projMap, Project, choices[..i])
        invariant project.deps == Losing(proj, projMap, instMap, Instance, choices[..i])
      {
        LosingSnoc(inst, instMap, projMap, Project, choices, i);
        LosingSnoc(proj, projMap, instMap, Instance, choices, i);
        var Choice(name, winner) := choices[i];
        if winner == Instance && name in instMap && name in projMap {
          project.deps := ReplaceWholeLine(project.deps, projMap[name], [instMap[name]]);
        } else if winner == Project && name in projMap && name in instMap {
          instance.deps := ReplaceWholeLine(instance.deps, instMap[name], [projMap[name]]);
        }
      }
      assert choices[..|choices|] == choices;
    }
  }
}
