/** The text normaliser `clean_text` and the fixed three-line formatter
    `summarize_for_similarity` of utils/text.py. */
module TextNorm {
  import opened PyStr

  const Nbsp: char := '\U{A0}'

  /** The class `[ \t]` of the second rewrite. */
  predicate IsBlank(c: char) {
    c == ' ' || c == '\t'
  }

  predicate NoPair(s: string, a: char, b: char) {
    forall i :: 0 <= i < |s| - 1 ==> !(s[i] == a && s[i + 1] == b)
  }

  predicate NoDoubleSpace(s: string) {
    NoPair(s, ' ', ' ')
  }

  predicate NoTripleNewline(s: string) {
    forall i :: 0 <= i < |s| - 2 ==> !(s[i] == '\n' && s[i + 1] == '\n' && s[i + 2] == '\n')
  }

  /** What every output of `clean_text` looks like. */
  predicate Normalised(s: string) {
    && Nbsp !in s
    && '\t' !in s
    && '\r' !in s
    && NoDoubleSpace(s)
    && NoTripleNewline(s)
    && NoEdgeSpace(s)
  }

  /** Rewrites one character everywhere (the first and third rewrites). */
  function ReplaceChar(s: string, from: char, to: char): string {
    seq(|s|, i requires 0 <= i < |s| => if s[i] == from then to else s[i])
  }

  /** `re.sub(r"[ \t]+", " ", ·)` as a left-to-right scan; `inRun` says the
      previous input character was a blank. */
  function CollapseFrom(s: string, inRun: bool): (r: string)
    ensures '\t' !in r
    ensures NoDoubleSpace(r)
    ensures inRun && r != [] ==> r[0] != ' '
    ensures forall c :: c in r ==> c == ' ' || c in s
    decreases |s|
  {
    if s == [] then []
    else if IsBlank(s[0]) then
      (if inRun then CollapseFrom(s[1..], true) else [' '] + CollapseFrom(s[1..], true))
    else
      [s[0]] + CollapseFrom(s[1..], false)
  }

  function CollapseBlanks(s: string): string {
    CollapseFrom(s, false)
  }

  /** `re.sub(r"\n{3,}", "\n\n", ·)` as a left-to-right scan; `run` counts the
      newlines immediately before `s`. A run of k newlines keeps min(k, 2). */
  function CapFrom(s: string, run: nat): (r: string)
    ensures NoTripleNewline(r)
    ensures run >= 1 ==> !(|r| >= 2 && r[0] == '\n' && r[1] == '\n')
    ensures run >= 2 ==> !(|r| >= 1 && r[0] == '\n')
    ensures forall c :: c in r ==> c in s
    decreases |s|
  {
    if s == [] then []
    else if s[0] == '\n' then
      var rest := CapFrom(s[1..], run + 1);
      if run >= 2 then rest
      else
        assert rest != [] ==> ("\n" + rest)[1] == rest[0];
        "\n" + rest
    else
      var rest := CapFrom(s[1..], 0);
      assert ([s[0]] + rest)[0] == s[0];
      [s[0]] + rest
  }

  function CapNewlines(s: string): string {
    CapFrom(s, 0)
  }

  /** `clean_text`: nbsp to space, blank runs to one space, CR to LF,
      newline runs capped at two, then `strip()`. */
  function Clean(t: string): (r: string)
    ensures Normalised(r)
  {
    var s1 := ReplaceChar(t, Nbsp, ' ');
    var s2 := CollapseBlanks(s1);
    var s3 := ReplaceChar(s2, '\r', '\n');
    var s4 := CapNewlines(s3);
    NormalisedStages(t, s1, s2, s3, s4);
    Strip(s4)
  }

  lemma NormalisedStages(t: string, s1: string, s2: string, s3: string, s4: string)
    requires s1 == ReplaceChar(t, Nbsp, ' ')
    requires s2 == CollapseBlanks(s1)
    requires s3 == ReplaceChar(s2, '\r', '\n')
    requires s4 == CapNewlines(s3)
    ensures Normalised(Strip(s4))
  {
    assert Nbsp !in s1;
    assert Nbsp !in s2;
    CrToLfKeeps(s2, s3);
    CapKeepsPair(s3, 0, ' ', ' ');
    StripKeeps(s4);
  }

  lemma CrToLfKeeps(s2: string, s3: string)
    requires s3 == ReplaceChar(s2, '\r', '\n')
    requires Nbsp !in s2 && '\t' !in s2 && NoDoubleSpace(s2)
    ensures Nbsp !in s3 && '\t' !in s3 && '\r' !in s3 && NoDoubleSpace(s3)
  {
    forall i | 0 <= i < |s3| - 1
      ensures !(s3[i] == ' ' && s3[i + 1] == ' ')
    {
      assert s3[i] == ' ' ==> s2[i] == ' ';
    }
  }

  lemma StripKeeps(s4: string)
    requires Nbsp !in s4 && '\t' !in s4 && '\r' !in s4
    requires NoDoubleSpace(s4) && NoTripleNewline(s4)
    ensures Normalised(Strip(s4))
  {
    var r := Strip(s4);
    var k := SpacePrefix(s4);
    assert forall i :: 0 <= i < |r| ==> r[i] == s4[k + i];
  }

  /** Capping newline runs never makes two non-newline characters adjacent. */
  lemma {:induction false} CapKeepsPair(s: string, run: nat, a: char, b: char)
    requires a != '\n'
    requires NoPair(s, a, b)
    ensures NoPair(CapFrom(s, run), a, b)
    decreases |s|
  {
    if s != [] {
      var t := s[1..];
      assert NoPair(t, a, b) by {
        forall i | 0 <= i < |t| - 1 ensures !(t[i] == a && t[i + 1] == b) {
          assert t[i] == s[i + 1] && t[i + 1] == s[i + 2];
        }
      }
      if s[0] == '\n' {
        CapKeepsPair(t, run + 1, a, b);
      } else {
        CapKeepsPair(t, 0, a, b);
        var u := CapFrom(t, 0);
        assert u != [] ==> u[0] == t[0];
        assert u != [] ==> !(s[0] == a && u[0] == b);
      }
    }
  }

  lemma {:induction false} CollapseKeepsClean(s: string, inRun: bool)
    requires '\t' !in s && NoDoubleSpace(s)
    requires inRun ==> s == [] || s[0] != ' '
    ensures CollapseFrom(s, inRun) == s
    decreases |s|
  {
    if s != [] {
      var t := s[1..];
      assert '\t' !in t;
      assert NoDoubleSpace(t) by {
        forall i | 0 <= i < |t| - 1 ensures !(t[i] == ' ' && t[i + 1] == ' ') {
          assert t[i] == s[i + 1] && t[i + 1] == s[i + 2];
        }
      }
      if s[0] == ' ' {
        assert t == [] || t[0] != ' ';
        CollapseKeepsClean(t, true);
      } else {
        CollapseKeepsClean(t, false);
      }
      assert s == [s[0]] + t;
    }
  }

  lemma {:induction false} CapKeepsClean(s: string, run: nat)
    requires NoTripleNewline(s)
    requires run >= 1 ==> !(|s| >= 2 && s[0] == '\n' && s[1] == '\n')
    requires run >= 2 ==> !(|s| >= 1 && s[0] == '\n')
    ensures CapFrom(s, run) == s
    decreases |s|
  {
    if s != [] {
      var t := s[1..];
      assert NoTripleNewline(t) by {
        forall i | 0 <= i < |t| - 2
          ensures !(t[i] == '\n' && t[i + 1] == '\n' && t[i + 2] == '\n')
        {
          assert t[i] == s[i + 1] && t[i + 1] == s[i + 2] && t[i + 2] == s[i + 3];
        }
      }
      if s[0] == '\n' {
        assert |s| >= 3 ==> !(s[0] == '\n' && s[1] == '\n' && s[2] == '\n');
        CapKeepsClean(t, run + 1);
      } else {
        CapKeepsClean(t, 0);
      }
      assert s == [s[0]] + t;
    }
  }

  /** Every normalised string is a fixed point of `clean_text`. */
  lemma CleanKeepsNormalised(s: string)
    requires Normalised(s)
    ensures Clean(s) == s
  {
    var s1 := ReplaceChar(s, Nbsp, ' ');
    assert s1 == s;
    CollapseKeepsClean(s, false);
    var s3 := ReplaceChar(s, '\r', '\n');
    assert s3 == s;
    CapKeepsClean(s, 0);
    StripKeepsTrimmed(s);
  }

  /** `clean_text` is idempotent. */
  lemma CleanIdempotent(s: string)
    ensures Clean(Clean(s)) == Clean(s)
  {
    CleanKeepsNormalised(Clean(s));
  }

  /** The fixed points of `clean_text` are exactly the normalised strings. */
  lemma CleanFixpointIff(s: string)
    ensures Clean(s) == s <==> Normalised(s)
  {
    if Normalised(s) {
      CleanKeepsNormalised(s);
    }
  }

  /* ---- Run-level behaviour of the two collapsing rewrites ---- */

  /** The in-run flag after scanning `p` from flag `inRun`. */
  function EndsInRun(p: string, inRun: bool): bool {
    if p == [] then inRun else IsBlank(p[|p| - 1])
  }

  lemma {:induction false} CollapseAppend(p: string, q: string, inRun: bool)
    ensures CollapseFrom(p + q, inRun) == CollapseFrom(p, inRun) + CollapseFrom(q, EndsInRun(p, inRun))
    decreases |p|
  {
    if p != [] {
      var c := p[0];
      assert (p + q)[0] == c;
      assert (p + q)[1..] == p[1..] + q;
      CollapseAppend(p[1..], q, IsBlank(c));
      assert EndsInRun(p[1..], IsBlank(c)) == EndsInRun(p, inRun);
      var a := CollapseFrom(p[1..], IsBlank(c));
      var b := CollapseFrom(q, EndsInRun(p, inRun));
      assert [' '] + (a + b) == ([' '] + a) + b;
      assert [c] + (a + b) == ([c] + a) + b;
    } else {
      assert p + q == q;
    }
  }

  lemma {:induction false} CollapseSkipsBlanks(b: string, q: string)
    requires forall i :: 0 <= i < |b| ==> IsBlank(b[i])
    ensures CollapseFrom(b + q, true) == CollapseFrom(q, true)
    decreases |b|
  {
    if b != [] {
      assert (b + q)[0] == b[0];
      assert (b + q)[1..] == b[1..] + q;
      CollapseSkipsBlanks(b[1..], q);
    } else {
      assert b + q == q;
    }
  }

  /** A maximal run of spaces and tabs becomes exactly one space, and the
      text on either side is rewritten independently. */
  lemma BlankRunBecomesOneSpace(p: string, b: string, q: string)
    requires p == [] || !IsBlank(p[|p| - 1])
    requires |b| >= 1 && forall i :: 0 <= i < |b| ==> IsBlank(b[i])
    requires q == [] || !IsBlank(q[0])
    ensures CollapseBlanks(p + b + q) == CollapseBlanks(p) + " " + CollapseBlanks(q)
  {
    assert p + b + q == p + (b + q);
    CollapseAppend(p, b + q, false);
    assert (b + q)[1..] == b[1..] + q;
    CollapseSkipsBlanks(b[1..], q);
  }

  /** k newline characters. */
  function Newlines(k: nat): (r: string)
    ensures |r| == k && forall i :: 0 <= i < k ==> r[i] == '\n'
  {
    seq(k, _ => '\n')
  }

  /** The newline-run count after scanning `p` from count `run`. */
  function RunAfter(p: string, run: nat): nat
    decreases |p|
  {
    if p == [] then run else if p[0] == '\n' then RunAfter(p[1..], run + 1) else RunAfter(p[1..], 0)
  }

  lemma {:induction false} RunAfterNonNewline(p: string, run: nat)
    requires p != [] && p[|p| - 1] != '\n'
    ensures RunAfter(p, run) == 0
    decreases |p|
  {
    if |p| > 1 {
      RunAfterNonNewline(p[1..], if p[0] == '\n' then run + 1 else 0);
    }
  }

  lemma {:induction false} CapAppend(p: string, q: string, run: nat)
    ensures CapFrom(p + q, run) == CapFrom(p, run) + CapFrom(q, RunAfter(p, run))
    decreases |p|
  {
    if p != [] {
      var c := p[0];
      assert (p + q)[0] == c;
      assert (p + q)[1..] == p[1..] + q;
      var run' := if c == '\n' then run + 1 else 0;
      CapAppend(p[1..], q, run');
      var a := CapFrom(p[1..], run');
      var b := CapFrom(q, RunAfter(p, run));
      assert [c] + (a + b) == ([c] + a) + b;
    } else {
      assert p + q == q;
    }
  }

  /** How many of k newlines the scan keeps when `run` newlines precede them. */
  function KeptNewlines(k: nat, run: nat): nat {
    if run >= 2 then 0 else if k <= 2 - run then k else 2 - run
  }

  lemma {:induction false} CapOfNewlines(k: nat, q: string, run: nat)
    ensures CapFrom(Newlines(k) + q, run) == Newlines(KeptNewlines(k, run)) + CapFrom(q, run + k)
    decreases k
  {
    if k == 0 {
      assert Newlines(0) + q == q;
      assert Newlines(0) + CapFrom(q, run) == CapFrom(q, run);
    } else {
      var s := Newlines(k) + q;
      assert s[1..] == Newlines(k - 1) + q;
      CapOfNewlines(k - 1, q, run + 1);
      CapNewlineStep(s, run);
      NewlinesCons(KeptNewlines(k - 1, run + 1), CapFrom(q, run + k), run);
    }
  }

  lemma CapNewlineStep(s: string, run: nat)
    requires s != [] && s[0] == '\n'
    ensures CapFrom(s, run) == (if run >= 2 then "" else "\n") + CapFrom(s[1..], run + 1)
  {
  }

  lemma NewlinesCons(j: nat, rest: string, run: nat)
    ensures (if run >= 2 then "" else "\n") + (Newlines(j) + rest)
         == Newlines(if run >= 2 then j else j + 1) + rest
  {
    if run >= 2 {
      assert "" + (Newlines(j) + rest) == Newlines(j) + rest;
    } else {
      assert "\n" + (Newlines(j) + rest) == Newlines(j + 1) + rest;
    }
  }

  /** A maximal run of k newlines keeps min(k, 2) of them (so a run of three
      or more becomes exactly two), and the text on either side is rewritten
      independently. */
  lemma NewlineRunCapped(p: string, k: nat, q: string)
    requires p == [] || p[|p| - 1] != '\n'
    requires k >= 1
    requires q == [] || q[0] != '\n'
    ensures CapNewlines(p + Newlines(k) + q)
         == CapNewlines(p) + Newlines(if k <= 2 then k else 2) + CapNewlines(q)
  {
    assert p + Newlines(k) + q == p + (Newlines(k) + q);
    CapAppend(p, Newlines(k) + q, 0);
    if p != [] {
      RunAfterNonNewline(p, 0);
    }
    CapOfNewlines(k, q, 0);
    assert CapFrom(q, k) == CapFrom(q, 0);
    assert KeptNewlines(k, 0) == if k <= 2 then k else 2;
  }

  /* ---- summarize_for_similarity ---- */

  /** A role record; `get(key, '')` of the source. */
  type Role = map<string, string>

  function RoleField(role: Role, key: string): string {
    if key in role then role[key] else ""
  }

  /** "title org start\u2013end" for one role. */
  function RoleLine(role: Role): string {
    RoleField(role, "title") + " " + RoleField(role, "org") + " "
      + RoleField(role, "start") + "\U{2013}" + RoleField(role, "end")
  }

  /** The role lines of `roles[:2]`. */
  function RecentRoles(roles: seq<Role>): seq<string> {
    var n := if |roles| < 2 then |roles| else 2;
    seq(n, i requires 0 <= i < n => RoleLine(roles[i]))
  }

  function Summarize(currentTitle: string, mustHits: seq<string>, niceHits: seq<string>, roles: seq<Role>): string {
    "title: " + currentTitle
      + "\nskills: " + Join(mustHits + niceHits, ", ")
      + "\nrecent: " + Join(RecentRoles(roles), " | ")
  }

  /** The summary is exactly three lines: the title, the must-hits followed by
      the nice-hits joined by ", ", and at most the first two roles joined by
      " | " — provided no field itself holds a newline. */
  lemma SummaryLines(currentTitle: string, mustHits: seq<string>, niceHits: seq<string>, roles: seq<Role>)
    requires '\n' !in currentTitle
    requires forall i :: 0 <= i < |mustHits| ==> '\n' !in mustHits[i]
    requires forall i :: 0 <= i < |niceHits| ==> '\n' !in niceHits[i]
    requires forall i, k :: 0 <= i < |roles| && i < 2 && k in roles[i] ==> '\n' !in roles[i][k]
    ensures var lines := Split(Summarize(currentTitle, mustHits, niceHits, roles), '\n');
      && |lines| == 3
      && lines[0] == "title: " + currentTitle
      && lines[1] == "skills: " + Join(mustHits + niceHits, ", ")
      && lines[2] == "recent: " + Join(RecentRoles(roles), " | ")
      && (|roles| >= 2 ==> lines[2] == "recent: " + Join([RoleLine(roles[0]), RoleLine(roles[1])], " | "))
  {
    var skills := mustHits + niceHits;
    JoinAvoids(skills, ", ", '\n');
    var recent := RecentRoles(roles);
    RecentRolesAvoidNewline(roles);
    JoinAvoids(recent, " | ", '\n');
    var l0 := "title: " + currentTitle;
    var l1 := "skills: " + Join(skills, ", ");
    var l2 := "recent: " + Join(recent, " | ");
    SummaryAsJoin(currentTitle, mustHits, niceHits, roles);
    SplitJoin([l0, l1, l2], '\n');
    if |roles| >= 2 {
      assert recent == [RoleLine(roles[0]), RoleLine(roles[1])];
    }
  }

  lemma RecentRolesAvoidNewline(roles: seq<Role>)
    requires forall i, k :: 0 <= i < |roles| && i < 2 && k in roles[i] ==> '\n' !in roles[i][k]
    ensures forall i :: 0 <= i < |RecentRoles(roles)| ==> '\n' !in RecentRoles(roles)[i]
  {
    var recent := RecentRoles(roles);
    forall i | 0 <= i < |recent| ensures '\n' !in recent[i] {
      var r := roles[i];
      assert '\n' !in RoleField(r, "title") && '\n' !in RoleField(r, "org");
      assert '\n' !in RoleField(r, "start") && '\n' !in RoleField(r, "end");
    }
  }

  lemma SummaryAsJoin(currentTitle: string, mustHits: seq<string>, niceHits: seq<string>, roles: seq<Role>)
    ensures Summarize(currentTitle, mustHits, niceHits, roles)
         == Join(["title: " + currentTitle,
                  "skills: " + Join(mustHits + niceHits, ", "),
                  "recent: " + Join(RecentRoles(roles), " | ")], "\n")
  {
    assert "\nskills: " == "\n" + "skills: ";
    assert "\nrecent: " == "\n" + "recent: ";
    ThreeLines("title: " + currentTitle, "skills: ", Join(mustHits + niceHits, ", "),
               "recent: ", Join(RecentRoles(roles), " | "), "\n");
  }

  /** Three lines written out with their separators are their join. */
  lemma ThreeLines(l0: string, p1: string, x1: string, p2: string, x2: string, nl: string)
    ensures l0 + (nl + p1) + x1 + (nl + p2) + x2 == Join([l0, p1 + x1, p2 + x2], nl)
  {
    var xs := [l0, p1 + x1, p2 + x2];
    assert xs[1..] == [p1 + x1, p2 + x2] && xs[1..][1..] == [p2 + x2];
    calc {
      Join(xs, nl);
      l0 + nl + Join(xs[1..], nl);
      l0 + nl + ((p1 + x1) + nl + (p2 + x2));
    }
  }
}
