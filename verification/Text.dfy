/** Python's string operations the requirement parser is written with, on
    lines: a line is a string that holds no newline. */
module Text {
  datatype Option<+T> = None | Some(value: T)

  /** A requirement line as `_parse_req_line` reads it: the lower-case package
      name, and the line without its comment and surrounding blanks. */
  datatype Req = Req(name: string, raw: string)

  /** What `str.strip` removes. */
  predicate Blank(c: char) {
    || c == ' ' || '\t' <= c <= '\r' || '\U{1C}' <= c <= '\U{1F}' || c == '\U{85}' || c == '\U{A0}'
    || c == '\U{1680}' || '\U{2000}' <= c <= '\U{200A}' || c == '\U{2028}' || c == '\U{2029}'
    || c == '\U{202F}' || c == '\U{205F}' || c == '\U{3000}'
  }

  function LStrip(s: string): string {
    if s != "" && Blank(s[0]) then LStrip(s[1..]) else s
  }

  function RStrip(s: string): string {
    if s != "" && Blank(s[|s| - 1]) then RStrip(s[..|s| - 1]) else s
  }

  function Strip(s: string): string {
    RStrip(LStrip(s))
  }

  predicate Trimmed(s: string) {
    s != "" ==> !Blank(s[0]) && !Blank(s[|s| - 1])
  }

  /** `line.split('#')[0]` */
  function BeforeHash(s: string): string {
    if s == "" || s[0] == '#' then "" else [s[0]] + BeforeHash(s[1..])
  }

  predicate NameChar(c: char) {
    'A' <= c <= 'Z' || 'a' <= c <= 'z' || '0' <= c <= '9' || c == '_' || c == '.' || c == '-'
  }

  function NamePrefix(s: string): string {
    if s == "" || !NameChar(s[0]) then "" else [s[0]] + NamePrefix(s[1..])
  }

  function LowerChar(c: char): char {
    if 'A' <= c <= 'Z' then (c as int + 32) as char else c
  }

  function Lower(s: string): string {
    seq(|s|, i requires 0 <= i < |s| => LowerChar(s[i]))
  }

  function ParseReq(line: string): Option<Req> {
    var stripped := Strip(BeforeHash(line));
    var name := NamePrefix(stripped);
    if name == "" then None else Some(Req(Lower(name), stripped))
  }

  /** The first place `pat` occurs in `s`, or -1. */
  function Find(s: string, pat: string): (k: int)
    ensures -1 <= k && (k >= 0 ==> k + |pat| <= |s| && s[k..k + |pat|] == pat)
    ensures pat <= s ==> k == 0
  {
    if pat <= s then 0
    else if s == "" then -1
    else
      var k := Find(s[1..], pat);
      if k < 0 then -1 else
      assert s[k + 1..k + 1 + |pat|] == s[1..][k..k + |pat|];
      k + 1
  }

  predicate Contains(s: string, pat: string) {
    Find(s, pat) >= 0
  }

  /* ---- Stripping ---- */

  lemma {:induction false} LStripShape(s: string)
    ensures LStrip(s) != "" ==> !Blank(LStrip(s)[0]) && LStrip(s)[|LStrip(s)| - 1] == s[|s| - 1]
    ensures forall c :: c in LStrip(s) ==> c in s
    ensures |LStrip(s)| <= |s|
  {
    if s != "" && Blank(s[0]) {
      LStripShape(s[1..]);
    }
  }

  lemma {:induction false} RStripShape(s: string)
    ensures RStrip(s) <= s
    ensures RStrip(s) != "" ==> !Blank(RStrip(s)[|RStrip(s)| - 1])
  {
    if s != "" && Blank(s[|s| - 1]) {
      RStripShape(s[..|s| - 1]);
    }
  }

  lemma StripTrims(s: string)
    ensures Trimmed(Strip(s))
    ensures forall c :: c in Strip(s) ==> c in s
  {
    LStripShape(s);
    RStripShape(LStrip(s));
  }

  lemma StripIdempotent(s: string)
    ensures Strip(Strip(s)) == Strip(s)
  {
    StripTrims(s);
  }

  /* ---- Comments ---- */

  lemma {:induction false} BeforeHashHasNone(s: string)
    ensures '#' !in BeforeHash(s)
    ensures '#' !in s ==> BeforeHash(s) == s
  {
    if s != "" && s[0] != '#' {
      BeforeHashHasNone(s[1..]);
    }
  }

  /** What was read from a line reads back as itself: a specification is
      already free of comments and surrounding blanks. */
  lemma RawReadsBack(line: string)
    requires ParseReq(line).Some?
    ensures ParseReq(ParseReq(line).value.raw) == ParseReq(line)
    ensures Strip(ParseReq(line).value.raw) == ParseReq(line).value.raw
  {
    BeforeHashHasNone(line);
    StripTrims(BeforeHash(line));
    StripIdempotent(BeforeHash(line));
    BeforeHashHasNone(ParseReq(line).value.raw);
  }

  lemma {:induction false} LStripKeepsReq(s: string)
    ensures ParseReq(LStrip(s)) == ParseReq(s)
  {
    if s != "" && Blank(s[0]) {
      LStripKeepsReq(s[1..]);
      var b := BeforeHash(s);
      assert b[0] == s[0] && b[1..] == BeforeHash(s[1..]);
    }
  }

  lemma {:induction false} LStripSnoc(s: string, b: char)
    requires Blank(b)
    ensures LStrip(s + [b]) == if LStrip(s) == "" then "" else LStrip(s) + [b]
  {
    if s == "" {
      assert LStrip(([b])[1..]) == "";
    } else if Blank(s[0]) {
      assert (s + [b])[1..] == s[1..] + [b];
      LStripSnoc(s[1..], b);
    }
  }

  lemma StripSnoc(s: string, b: char)
    requires Blank(b)
    ensures Strip(s + [b]) == Strip(s)
  {
    LStripSnoc(s, b);
    var l := LStrip(s);
    assert (l + [b])[..|l|] == l;
  }

  lemma {:induction false} BeforeHashSnoc(s: string, b: char)
    requires b != '#'
    ensures BeforeHash(s + [b]) == if '#' in s then BeforeHash(s) else s + [b]
  {
    if s == "" {
      assert BeforeHash(([b])[1..]) == "";
    } else if s[0] != '#' {
      assert (s + [b])[1..] == s[1..] + [b];
      BeforeHashSnoc(s[1..], b);
    }
  }

  lemma {:induction false} RStripKeepsReq(s: string)
    ensures ParseReq(RStrip(s)) == ParseReq(s)
  {
    if s != "" && Blank(s[|s| - 1]) {
      var t, b := s[..|s| - 1], s[|s| - 1];
      assert s == t + [b];
      RStripKeepsReq(t);
      BeforeHashSnoc(t, b);
      BeforeHashHasNone(t);
      StripSnoc(t, b);
    }
  }

  /** Stripping a line first changes nothing of what is read from it. */
  lemma StripKeepsReq(s: string)
    ensures ParseReq(Strip(s)) == ParseReq(s)
  {
    LStripKeepsReq(s);
    RStripKeepsReq(LStrip(s));
  }

  /* ---- What is read, character by character ---- */

  lemma BlankIs(c: char)
    ensures Blank(c) <==>
            var n := c as int;
            || 9 <= n <= 13 || 28 <= n <= 32 || n == 133 || n == 160 || n == 5_760 || 8_192 <= n <= 8_202
            || n == 8_232 || n == 8_233 || n == 8_239 || n == 8_287 || n == 12_288
  {
  }

  lemma {:induction false} LStripCuts(s: string) returns (a: nat)
    ensures a <= |s| && LStrip(s) == s[a..] && forall i :: 0 <= i < a ==> Blank(s[i])
    ensures a < |s| ==> !Blank(s[a])
  {
    a := 0;
    if s != "" && Blank(s[0]) {
      var b := LStripCuts(s[1..]);
      a := b + 1;
    }
  }

  lemma {:induction false} RStripCuts(s: string) returns (b: nat)
    ensures b <= |s| && RStrip(s) == s[..b] && forall i :: b <= i < |s| ==> Blank(s[i])
    ensures b > 0 ==> !Blank(s[b - 1])
  {
    b := |s|;
    if s != "" && Blank(s[|s| - 1]) {
      b := RStripCuts(s[..|s| - 1]);
    } else {
      assert s[..|s|] == s;
    }
  }

  lemma {:induction false} HashCuts(s: string) returns (c: nat)
    ensures c <= |s| && BeforeHash(s) == s[..c] && (c < |s| ==> s[c] == '#')
    ensures forall i :: 0 <= i < c ==> s[i] != '#'
  {
    c := 0;
    if s != "" && s[0] != '#' {
      var d := HashCuts(s[1..]);
      c := d + 1;
      assert s[..c] == [s[0]] + s[1..][..d];
    }
  }

  /** Where a line is cut: blanks, the specification, blanks, and the first `#` or the end. */
  lemma StripCuts(line: string) returns (a: nat, b: nat, c: nat)
    ensures a <= b <= c <= |line| && Strip(BeforeHash(line)) == line[a..b]
    ensures (c < |line| ==> line[c] == '#') && forall i :: 0 <= i < c ==> line[i] != '#'
    ensures forall i :: 0 <= i < a || b <= i < c ==> Blank(line[i])
    ensures a < b ==> !Blank(line[a]) && !Blank(line[b - 1])
  {
    hide LStrip, RStrip, BeforeHash, Blank;
    c := HashCuts(line);
    var s := line[..c];
    a := LStripCuts(s);
    var t := s[a..];
    var d := RStripCuts(t);
    b := a + d;
    assert t[..d] == line[a..b];
    forall i | b <= i < c ensures Blank(line[i]) {
      assert line[i] == t[i - a];
    }
    if a < b {
      assert line[b - 1] == t[d - 1] && line[a] == s[a];
    }
  }

  /** A letter, a digit, or one of `_`, `.` and `-`. */
  lemma NameCharIs(c: char)
    ensures NameChar(c) <==>
            var n := c as int; 65 <= n <= 90 || 97 <= n <= 122 || 48 <= n <= 57 || n == 95 || n == 46 || n == 45
  {
  }

  lemma {:induction false} NamePrefixCuts(s: string)
    ensures NamePrefix(s) <= s && forall i :: 0 <= i < |NamePrefix(s)| ==> NameChar(s[i])
    ensures |NamePrefix(s)| < |s| ==> !NameChar(s[|NamePrefix(s)|])
  {
    if s != "" && NameChar(s[0]) {
      NamePrefixCuts(s[1..]);
    }
  }

  /** A line is a requirement exactly when a name begins it, blanks and comment
      apart; the specification is what stands between. */
  lemma ReadingIs(line: string) returns (a: nat, b: nat, c: nat)
    ensures a <= b <= c <= |line|
    ensures (c < |line| ==> line[c] == '#') && forall i :: 0 <= i < c ==> line[i] != '#'
    ensures forall i :: 0 <= i < a || b <= i < c ==> Blank(line[i])
    ensures a < b ==> !Blank(line[a]) && !Blank(line[b - 1])
    ensures ParseReq(line).Some? <==> a < b && NameChar(line[a])
    ensures ParseReq(line).Some? ==> ParseReq(line).value.raw == line[a..b]
  {
    hide BeforeHash, Strip, Blank;
    a, b, c := StripCuts(line);
  }

  /** The name is the specification's own beginning in lower case, as far as it goes. */
  lemma NameIs(line: string)
    requires ParseReq(line).Some?
    ensures var Req(name, raw) := ParseReq(line).value;
            && 0 < |name| <= |raw|
            && (forall i :: 0 <= i < |name| ==>
                  && ('a' <= name[i] <= 'z' || '0' <= name[i] <= '9' || name[i] in "_.-")
                  && (if 'A' <= raw[i] <= 'Z' then name[i] as int == raw[i] as int + 32 else name[i] == raw[i]))
            && (|name| < |raw| ==>
                  var c := raw[|name|];
                  !('A' <= c <= 'Z' || 'a' <= c <= 'z' || '0' <= c <= '9' || c in "_.-"))
  {
    hide BeforeHash, Strip;
    NamePrefixCuts(Strip(BeforeHash(line)));
  }

  /** The place found is the first there is, and one is found if there is any. */
  lemma {:induction false} FindIsFirst(s: string, pat: string, k: nat)
    requires k + |pat| <= |s| && s[k..k + |pat|] == pat
    ensures 0 <= Find(s, pat) <= k
  {
    if !(pat <= s) {
      assert k > 0;
      assert s[1..][k - 1..k - 1 + |pat|] == s[k..k + |pat|];
      FindIsFirst(s[1..], pat, k - 1);
    }
  }

  /** `strip` takes the blanks off both ends, and nothing else. */
  lemma StripIs(s: string) returns (a: nat, b: nat)
    ensures a <= b <= |s| && Strip(s) == s[a..b]
    ensures forall i :: 0 <= i < a || b <= i < |s| ==> Blank(s[i])
    ensures a < b ==> !Blank(s[a]) && !Blank(s[b - 1])
  {
    hide LStrip, RStrip, Blank;
    a := LStripCuts(s);
    var t := s[a..];
    var d := RStripCuts(t);
    b := a + d;
    assert t[..d] == s[a..b];
    forall i | b <= i < |s| ensures Blank(s[i]) {
      assert s[i] == t[i - a];
    }
    if a < b {
      assert s[b - 1] == t[d - 1] && s[a] == t[0];
    }
  }

  /** Character by character: A to Z become a to z, and nothing else changes. */
  predicate LowerCase(lower: string, s: string) {
    && |lower| == |s|
    && forall i :: 0 <= i < |s| ==>
         if 'A' <= s[i] <= 'Z' then lower[i] as int == s[i] as int + 32 else lower[i] == s[i]
  }

  lemma LowerIs(s: string)
    ensures LowerCase(Lower(s), s)
  {
  }
}
