/** `merge_pip_requirements`: one repository's manifest folded into a field. */
module Merge {
  import opened Text
  import opened Requirements
  import opened Order

  /** Who wrote a package's line, and the line as they wrote it. */
  datatype Source = Source(repo: string, spec: string, origin: string)

  type Sources = map<string, Source>

  /** The merging repository: its normalized URL, `''` for none, and its marker label. */
  datatype Repo = Repo(key: string, origin: string)

  datatype Update = Update(name: string, was: string, now: string)

  /** `sources` is there in provenance mode only. */
  datatype Result = Result(
    content: Lines, conflicts: seq<Conflict>, added: seq<string>, updated: seq<Update>,
    adopted: seq<string>, removed: seq<string>, sources: Option<Sources>)

  /** What the merge decides about one incoming requirement. */
  datatype Verdict = Add | Keep | Adopt | Refresh | Rewrite | Dispute

  function Judge(owning: bool, key: string, entry: Option<Entry>, owner: Option<Source>, raw: string): Verdict {
    if entry.None? then Add
    else if entry.value.spec == raw then
      if owning && entry.value.CleanEntry? && owner.None? then Adopt else Keep
    else if entry.value.ConflictEntry? then Refresh
    else if owning && owner.Some? && owner.value.repo == key then Rewrite
    else Dispute
  }

  /** What the loop carries from one line of the manifest to the next. */
  datatype Progress = Progress(
    text: Lines, pkg: map<string, Entry>, src: Sources, added: seq<string>, updated: seq<Update>,
    adopted: seq<string>, conflicts: seq<Conflict>, named: set<string>)

  function Claim(repo: Repo, src: Sources, r: Req): Sources {
    src[r.name := Source(repo.key, r.raw, repo.origin)]
  }

  function VerdictOn(repo: Repo, owning: bool, pkg: map<string, Entry>, src: Sources, r: Req): Verdict {
    Judge(owning, repo.key, Get(pkg, r.name), Get(src, r.name), r.raw)
  }

  function Step(repo: Repo, owning: bool, s: Progress, r: Req): Progress {
    var s := s.(named := s.named + {r.name});
    match VerdictOn(repo, owning, s.pkg, s.src, r)
    case Add =>
      s.(added := s.added + [r.raw], pkg := s.pkg[r.name := CleanEntry(r.raw)],
         src := if owning then Claim(repo, s.src, r) else s.src)
    case Keep => s
    case Adopt => s.(src := Claim(repo, s.src, r), adopted := s.adopted + [r.name])
    case Refresh =>
      var e := s.pkg[r.name];
      var block := Block(e.existingSrc, e.spec, r.raw, repo.origin);
      s.(text := ReplaceBlock(s.text, e.block, block),
         pkg := s.pkg[r.name := e.(block := block)],
         conflicts := s.conflicts + [Conflict(r.name, e.spec, e.existingSrc, r.raw, repo.origin)])
    case Rewrite =>
      var spec := s.pkg[r.name].spec;
      s.(text := ReplaceWholeLine(s.text, spec, [r.raw]), pkg := s.pkg[r.name := CleanEntry(r.raw)],
         src := Claim(repo, s.src, r), updated := s.updated + [Update(r.name, spec, r.raw)])
    case Dispute =>
      var spec := s.pkg[r.name].spec;
      var block := Block("existing", spec, r.raw, repo.origin);
      s.(text := ReplaceWholeLine(s.text, spec, block),
         pkg := s.pkg[r.name := ConflictEntry(spec, "existing", block)],
         conflicts := s.conflicts + [Conflict(r.name, spec, "existing", r.raw, repo.origin)])
  }

  function Steps(repo: Repo, owning: bool, s: Progress, reqs: seq<Req>): Progress {
    if reqs == [] then s
    else Step(repo, owning, Steps(repo, owning, s, reqs[..|reqs| - 1]), reqs[|reqs| - 1])
  }

  /** The requirements of a manifest, in order. */
  function Reqs(lines: Lines): seq<Req> {
    if lines == [] then []
    else
      var parsed := ParseReq(lines[|lines| - 1]);
      Reqs(lines[..|lines| - 1]) + if parsed.Some? then [parsed.value] else []
  }

  function Owning(repo: Repo, sources: Option<Sources>): bool {
    sources.Some? && repo.key != ""
  }

  function Start(text: Lines, sources: Option<Sources>): Progress {
    Progress(text, PkgMap(text), if sources.Some? then sources.value else map[], [], [], [], [], {})
  }

  ghost function Finish(repo: Repo, sources: Option<Sources>, s: Progress): Result {
    Result(
      if s.added != [] then StripTail(s.text) + s.added else s.text,
      s.conflicts, s.added, s.updated, s.adopted,
      if Owning(repo, sources) then Sorted(set n | n in s.src && s.src[n].repo == repo.key && n !in s.named) else [],
      if sources.Some? then Some(s.src) else None)
  }

  ghost function Merged(text: Lines, incoming: Lines, repo: Repo, sources: Option<Sources>): Result {
    Finish(repo, sources, Steps(repo, Owning(repo, sources), Start(text, sources), Reqs(incoming)))
  }

  /** `prune_pip_sources`: the entries a clean line still backs. */
  function Pruned(text: Lines, sources: Sources): Sources {
    var pkg := PkgMap(text);
    sources - (set n | n in sources && !(n in pkg && pkg[n].CleanEntry? && pkg[n].spec == sources[n].spec))
  }

  lemma ReqsSnoc(lines: Lines, i: nat)
    requires i < |lines|
    ensures Reqs(lines[..i + 1]) ==
            Reqs(lines[..i]) + if ParseReq(lines[i]).Some? then [ParseReq(lines[i]).value] else []
  {
    assert lines[..i + 1][..i] == lines[..i];
  }

  /** Line by line and in order, the requirements a manifest's lines state. */
  lemma {:induction false} ReqsConcat(a: Lines, b: Lines)
    ensures Reqs(a + b) == Reqs(a) + Reqs(b)
  {
    hide ParseReq;
    if b == [] {
      assert a + b == a;
    } else {
      assert (a + b)[..|a + b| - 1] == a + b[..|b| - 1];
      ReqsConcat(a, b[..|b| - 1]);
    }
  }

  lemma ReqsOfLine(line: string)
    ensures Reqs([]) == []
    ensures Reqs([line]) == if ParseReq(line).Some? then [ParseReq(line).value] else []
  {
    hide ParseReq;
    assert [line][..0] == [];
  }

  lemma StepsSnoc(repo: Repo, owning: bool, s: Progress, reqs: seq<Req>, r: Req)
    ensures Steps(repo, owning, s, reqs + [r]) == Step(repo, owning, Steps(repo, owning, s, reqs), r)
  {
    assert (reqs + [r])[..|reqs|] == reqs;
  }

  lemma StepsNone(repo: Repo, owning: bool, s: Progress)
    ensures Reqs([]) == [] && Steps(repo, owning, s, []) == s
  {
  }

  /** The loop as the repository writes it. */
  method MergePipRequirements(existing: Lines, incoming: Lines, repo: Repo, sources: Option<Sources>)
    returns (r: Result)
    ensures r == Merged(existing, incoming, repo, sources)
  {
    hide Steps, Reqs, ParseReq, ReplaceWholeLine, ReplaceBlock, StripTail, PkgMap, Block;
    var owning := sources.Some? && repo.key != "";
    var src := if sources.Some? then sources.value else map[];
    var pkg := BuildPkgMap(existing);
    var text := existing;
    var added: seq<string>, updated: seq<Update>, adopted: seq<string> := [], [], [];
    var conflicts: seq<Conflict>, named: set<string> := [], {};
    ghost var start := Start(existing, sources);
    ghost var s := start;
    StepsNone(repo, owning, start);
    assert incoming[..0] == [];
    for i := 0 to |incoming|
      invariant s == Steps(repo, owning, start, Reqs(incoming[..i]))
      invariant text == s.text && pkg == s.pkg && src == s.src && named == s.named
      invariant added == s.added && updated == s.updated && adopted == s.adopted && conflicts == s.conflicts
    {
      ReqsSnoc(incoming, i);
      var parsed := ParseReq(incoming[i]);
      if parsed.None? {
        assert Reqs(incoming[..i + 1]) == Reqs(incoming[..i]);
        continue;
      }
      var Req(name, raw) := parsed.value;
      StepsSnoc(repo, owning, start, Reqs(incoming[..i]), parsed.value);
      ghost var verdict := VerdictOn(repo, owning, pkg, src, parsed.value);
      s := Step(repo, owning, s, parsed.value);
      named := named + {name};
      if name !in pkg {
        assert verdict == Add;
        added := added + [raw];
        pkg := pkg[name := CleanEntry(raw)];
        if owning {
          src := src[name := Source(repo.key, raw, repo.origin)];
        }
      } else if pkg[name].spec == raw {
        if owning && pkg[name].CleanEntry? && name !in src {
          src := src[name := Source(repo.key, raw, repo.origin)];
          adopted := adopted + [name];
        }
      } else if pkg[name].ConflictEntry? {
        assert verdict == Refresh;
        var ConflictEntry(spec, existingSrc, wasBlock) := pkg[name];
        var newBlock := Block(existingSrc, spec, raw, repo.origin);
        text := ReplaceBlock(text, wasBlock, newBlock);
        pkg := pkg[name := ConflictEntry(spec, existingSrc, newBlock)];
        conflicts := conflicts + [Conflict(name, spec, existingSrc, raw, repo.origin)];
      } else if owning && name in src && src[name].repo == repo.key {
        assert verdict == Rewrite;
        var wasSpec := pkg[name].spec;
        text := ReplaceWholeLine(text, wasSpec, [raw]);
        pkg := pkg[name := CleanEntry(raw)];
        src := src[name := Source(repo.key, raw, repo.origin)];
        updated := updated + [Update(name, wasSpec, raw)];
      } else {
        assert verdict == Dispute;
        var spec := pkg[name].spec;
        var newBlock := Block("existing", spec, raw, repo.origin);
        text := ReplaceWholeLine(text, spec, newBlock);
        pkg := pkg[name := ConflictEntry(spec, "existing", newBlock)];
        conflicts := conflicts + [Conflict(name, spec, "existing", raw, repo.origin)];
      }
    }
    assert incoming[..|incoming|] == incoming;
    if added != [] {
      text := StripTail(text) + added;
    }
    var removed := [];
    if owning {
      removed := Sort(set n | n in src && src[n].repo == repo.key && n !in named);
    }
    r := Result(text, conflicts, added, updated, adopted, removed, if sources.Some? then Some(src) else None);
  }
}
