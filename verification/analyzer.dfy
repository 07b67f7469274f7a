/** `analyze_cv_with_openai` of cv_analyzer.py without the network call: the
    model's reply is an input, and what remains is fence stripping, decoding,
    per-field coercion and the fallback structure. */
module Analyzer {
  import opened Wrappers
  import opened PyStr
  import opened Json
  import opened Profile
  import opened Fallback

  /* ---- fence stripping ---- */

  const JsonFence := "```json"
  const Fence := "```"

  /** `b == p + a + q` for some `p`, `q`. */
  ghost predicate IsInfix(a: string, b: string) {
    exists p: string, q: string :: b == p + a + q
  }

  /** The reply trimmed, then a leading "```json" dropped, then a leading
      "```", then a trailing "```". */
  function StripFences(reply: string): (r: string)
    ensures IsInfix(r, Strip(reply))
    ensures !StartsWith(Strip(reply), Fence) && !EndsWith(Strip(reply), Fence) ==> r == Strip(reply)
    ensures |Strip(reply)| <= |r| + 13
  {
    Unfence(Strip(reply))
  }

  /** The fence dropping, on the trimmed reply. */
  function Unfence(t: string): (r: string)
    ensures IsInfix(r, t)
    ensures !StartsWith(t, Fence) && !EndsWith(t, Fence) ==> r == t
    ensures |t| <= |r| + 13
  {
    var lo := FenceEnd(t);
    var hi := ClosingStart(t, lo);
    InfixSlice(t, lo, hi);
    assert lo == 0 && hi == |t| ==> t[lo..hi] == t;
    t[lo..hi]
  }

  /** Where the text ends once a trailing "```" after `lo` is dropped. */
  function ClosingStart(t: string, lo: nat): (hi: nat)
    requires lo <= |t|
    ensures lo <= hi <= |t| && |t| <= hi + 3
    ensures lo == 0 && !EndsWith(t, Fence) ==> hi == |t|
  {
    assert lo == 0 ==> t[lo..] == t;
    if EndsWith(t[lo..], Fence) then |t| - 3 else |t|
  }

  lemma InfixSlice(t: string, lo: nat, hi: nat)
    requires lo <= hi <= |t|
    ensures IsInfix(t[lo..hi], t)
  {
    InfixWitness(t[..lo], t[lo..hi], t[hi..], t);
  }

  /** Where the text starts once a leading "```json" and then a leading
      "```" are dropped. */
  function FenceEnd(t: string): (lo: nat)
    ensures lo <= 10 && lo <= |t|
    ensures !StartsWith(t, Fence) ==> lo == 0
  {
    JsonFenceIsFence(t);
    var lo1 := if StartsWith(t, JsonFence) then 7 else 0;
    lo1 + if StartsWith(t[lo1..], Fence) then 3 else 0
  }

  lemma JsonFenceIsFence(t: string)
    ensures StartsWith(t, JsonFence) ==> StartsWith(t, Fence)
  {
    if StartsWith(t, JsonFence) {
      assert t[..3] == t[..7][..3];
    }
  }

  lemma InfixWitness(p: string, a: string, q: string, b: string)
    requires b == p + a + q
    ensures IsInfix(a, b)
  {
  }

  /** A reply fenced as "```json … ```" gives back its body, newlines
      and all: the fences shield the body from the trimming. */
  lemma StripJsonFence(body: string)
    requires body != [] && body[0] != '`'
    ensures StripFences(JsonFence + body + Fence) == body
  {
    var s := JsonFence + body + Fence;
    assert s[7..] == body + Fence;
    assert s[0] == '`' && s[|s| - 1] == '`';
    calc {
      StripFences(s);
      Unfence(Strip(s));
      { StripKeepsTrimmed(s); }
      Unfence(s);
      { FenceEndJson(body); UnfenceClosing(s, 7, body); }
      body;
    }
  }

  lemma FenceEndJson(body: string)
    requires body != [] && body[0] != '`'
    ensures FenceEnd(JsonFence + body + Fence) == 7
  {
    var s := JsonFence + body + Fence;
    assert s[..7] == JsonFence;
    assert s[7..][0] == body[0];
  }

  /** With the opening fence ending at `lo` and `body` then a closing fence
      after it, the body is what remains. */
  lemma UnfenceClosing(t: string, lo: nat, body: string)
    requires lo <= |t| && FenceEnd(t) == lo && t[lo..] == body + Fence
    ensures Unfence(t) == body
  {
    var u := t[lo..];
    assert u[|u| - 3..] == Fence;
    assert t[lo..|t| - 3] == u[..|u| - 3] == body;
  }

  /** A reply fenced as "``` … ```" gives back its body, unless the body
      itself begins with "json". */
  lemma StripPlainFence(body: string)
    requires body != [] && body[0] != '`'
    requires !StartsWith(body, "json")
    ensures StripFences(Fence + body + Fence) == body
  {
    var s := Fence + body + Fence;
    assert s[3..] == body + Fence;
    assert s[0] == '`' && s[|s| - 1] == '`';
    calc {
      StripFences(s);
      Unfence(Strip(s));
      { StripKeepsTrimmed(s); }
      Unfence(s);
      { FenceEndPlain(body); UnfenceClosing(s, 3, body); }
      body;
    }
  }

  lemma FenceEndPlain(body: string)
    requires body != [] && body[0] != '`'
    requires !StartsWith(body, "json")
    ensures FenceEnd(Fence + body + Fence) == 3
  {
    var s := Fence + body + Fence;
    NotJsonFenced(body);
    assert s[..3] == Fence;
    assert s[3..][0] == body[0];
  }

  lemma NotJsonFenced(body: string)
    requires body != []
    requires !StartsWith(body, "json")
    ensures !StartsWith(Fence + body + Fence, JsonFence)
  {
    var s := Fence + body + Fence;
    if |body| >= 4 {
      assert s[3..7] == body[..4];
    } else {
      assert s[3 + |body|] == '`';
    }
  }

  /** A cut-off reply, "```json" with no closing fence, loses the opening
      fence and its trailing whitespace. */
  lemma StripOpeningFenceOnly(body: string, tail: string)
    requires body != [] && body[0] != '`'
    requires !IsSpace(body[|body| - 1]) && body[|body| - 1] != '`'
    requires AllSpace(tail)
    ensures StripFences(JsonFence + body + tail) == body
  {
    var s := JsonFence + body + tail;
    StripTrailing(JsonFence + body, tail);
    var t := JsonFence + body;
    StripKeepsTrimmed(t);
    assert t[7..] == body;
    assert t[..7] == JsonFence;
    assert t[7..][0] == body[0];
    assert FenceEnd(t) == 7;
    assert !EndsWith(body, Fence) by {
      if |body| >= 3 {
        assert body[|body| - 3..][2] == body[|body| - 1];
      }
    }
    assert t[7..|t|] == body;
  }

  /** A reply with only a closing fence loses it, keeping the whitespace
      before it. */
  lemma StripClosingFenceOnly(body: string)
    requires body != [] && body[0] != '`' && !IsSpace(body[0])
    ensures StripFences(body + Fence) == body
  {
    var s := body + Fence;
    StripKeepsTrimmed(s);
    assert !StartsWith(s, Fence) by {
      if |s| >= 3 {
        assert s[..3][0] == body[0];
      }
    }
    assert s[|s| - 3..] == Fence;
    assert s[..|s| - 3] == body;
  }

  /** A reply that neither begins nor ends with a backtick is only trimmed. */
  lemma StripUnfenced(body: string)
    requires body != [] && body[0] != '`' && body[|body| - 1] != '`' && NoEdgeSpace(body)
    ensures StripFences(body) == body
  {
    StripKeepsTrimmed(body);
    assert !StartsWith(body, Fence) by {
      if |body| >= 3 {
        assert body[..3][0] == body[0];
      }
    }
    assert !EndsWith(body, Fence) by {
      if |body| >= 3 {
        assert body[|body| - 3..][2] == body[|body| - 1];
      }
    }
  }

  /* ---- decoding ---- */

  /** Parse the fenceless reply; only an object is usable, since anything
      else fails at the first `.get`. */
  function Decode(reply: string, codec: Codec): (r: Option<seq<(string, JSON)>>)
    ensures r.Some? <==> codec.parse(StripFences(reply)).Some? && codec.parse(StripFences(reply)).value.JObj?
    ensures r.Some? ==> codec.parse(StripFences(reply)) == Some(JObj(r.value))
  {
    match codec.parse(StripFences(reply))
    case Some(JObj(members)) => Some(members)
    case _ => None
  }

  const NoSummary := "No summary available"
  const NoNotes := "No assessment notes"

  /** The per-field coercion of a decoded reply object. */
  function FromMembers(m: seq<(string, JSON)>, filename: string, repr: JSON -> string): (a: CVAnalysis)
    ensures a.sourceFile == filename && a.Unscored()
    ensures Lookup(m, "candidate_name") in {None, Some(JNull)} ==> a.candidateName == UnknownName
    ensures Lookup(m, "current_title") in {None, Some(JNull)} ==> a.currentTitle == NoTitle
    ensures Lookup(m, "summary") in {None, Some(JNull)} ==> a.summary == NoSummary
    ensures Lookup(m, "confidence_notes") in {None, Some(JNull)} ==> a.confidenceNotes == NoNotes
    ensures Lookup(m, "total_years") == None ==> a.totalYears == 0.0
    ensures Lookup(m, "relevant_years") == None ==> a.relevantYears == 0.0
    ensures Lookup(m, "must_have_skills") == None ==> a.mustHaveSkills == []
    ensures Lookup(m, "nice_to_have_skills") == None ==> a.niceToHaveSkills == []
    ensures Lookup(m, "experience_highlights") == None ==> a.experienceHighlights == []
    ensures Lookup(m, "strengths") == None ==> a.strengths == []
  {
    CVAnalysis(
      filename,
      SafeGet(m, "candidate_name", UnknownName, repr),
      SafeGet(m, "current_title", NoTitle, repr),
      SafeFloat(GetOr(m, "total_years", JNum(0.0))),
      SafeFloat(GetOr(m, "relevant_years", JNum(0.0))),
      SafeGet(m, "summary", NoSummary, repr),
      SafeList(GetOr(m, "must_have_skills", JArr([])), repr),
      SafeList(GetOr(m, "nice_to_have_skills", JArr([])), repr),
      SafeList(GetOr(m, "experience_highlights", JArr([])), repr),
      SafeList(GetOr(m, "strengths", JArr([])), repr),
      SafeGet(m, "confidence_notes", NoNotes, repr),
      None, None)
  }

  /** The reply object a record encodes to: every text field as a string,
      the years as numbers and the lists as arrays of strings. */
  function ToMembers(a: CVAnalysis): (m: seq<(string, JSON)>)
    ensures |m| == 10
  {
    [ ("confidence_notes", JStr(a.confidenceNotes)),
      ("candidate_name", JStr(a.candidateName)),
      ("current_title", JStr(a.currentTitle)),
      ("total_years", JNum(a.totalYears)),
      ("relevant_years", JNum(a.relevantYears)),
      ("summary", JStr(a.summary)),
      ("must_have_skills", StrArray(a.mustHaveSkills)),
      ("nice_to_have_skills", StrArray(a.niceToHaveSkills)),
      ("experience_highlights", StrArray(a.experienceHighlights)),
      ("strengths", StrArray(a.strengths)) ]
  }

  function StrArray(xs: seq<string>): JSON {
    JArr(seq(|xs|, i requires 0 <= i < |xs| => JStr(xs[i])))
  }

  /** Decoding the object a record encodes to gives the record back: the
      coercions lose nothing on well-typed replies. */
  lemma FromToMembers(a: CVAnalysis, repr: JSON -> string)
    requires a.Unscored()
    ensures FromMembers(ToMembers(a), a.sourceFile, repr) == a
  {
    var m := ToMembers(a);
    LookupField(a, 0); LookupField(a, 1); LookupField(a, 2); LookupField(a, 3); LookupField(a, 4);
    LookupField(a, 5); LookupField(a, 6); LookupField(a, 7); LookupField(a, 8); LookupField(a, 9);
    SafeListOfStrings(a.mustHaveSkills, repr);
    SafeListOfStrings(a.niceToHaveSkills, repr);
    SafeListOfStrings(a.experienceHighlights, repr);
    SafeListOfStrings(a.strengths, repr);
  }

  /** Each key of the encoding is found at its own entry: the ten keys are
      told apart by their length or their first character. */
  lemma LookupField(a: CVAnalysis, i: nat)
    requires i < 10
    ensures Lookup(ToMembers(a), ToMembers(a)[i].0) == Some(ToMembers(a)[i].1)
  {
    var m := ToMembers(a);
    forall j | 0 <= j < i
      ensures Unlike(m[j].0, m[i].0)
    {
    }
    LookupSkip(m, m[i].0, i);
  }

  /** Two keys told apart by their length or their first character. */
  predicate Unlike(a: string, b: string) {
    |a| != |b| || (a != [] && b != [] && a[0] != b[0])
  }

  /** The first entry under `key` is the one at index `i`. */
  lemma {:induction false} LookupSkip(m: seq<(string, JSON)>, key: string, i: nat)
    requires i < |m| && m[i].0 == key
    requires forall j :: 0 <= j < i ==> Unlike(m[j].0, key)
    ensures Lookup(m, key) == Some(m[i].1)
    decreases i
  {
    if i > 0 {
      LookupSkip(m[1..], key, i - 1);
    }
  }

  /** `analyze_cv_with_openai`. `reply` is the model's reply text, `None`
      when the call raised or returned no content. */
  function AnalyzeCv(cvText: string, filename: string, keyConfigured: bool, reply: Option<string>, codec: Codec): (a: CVAnalysis)
    ensures a.sourceFile == filename && a.Unscored()
    ensures !keyConfigured || reply.None? ==> a == FallbackAnalysis(cvText, filename)
    ensures keyConfigured && reply.Some? && Decode(reply.value, codec).None? ==> a == FallbackAnalysis(cvText, filename)
    ensures keyConfigured && reply.Some? && Decode(reply.value, codec).Some? ==>
              a == FromMembers(Decode(reply.value, codec).value, filename, codec.repr)
  {
    if !keyConfigured || reply.None? then FallbackAnalysis(cvText, filename)
    else
      match Decode(reply.value, codec)
      case None => FallbackAnalysis(cvText, filename)
      case Some(m) => FromMembers(m, filename, codec.repr)
  }

  /** A well-typed reply in a "```json" fence, such as
      "```json\n{…}\n```", yields the record it encodes. */
  lemma AnalyzeFencedReply(a: CVAnalysis, cvText: string, body: string, codec: Codec)
    requires a.Unscored()
    requires body != [] && body[0] != '`'
    requires codec.parse(body) == Some(JObj(ToMembers(a)))
    ensures AnalyzeCv(cvText, a.sourceFile, true, Some(JsonFence + body + Fence), codec) == a
  {
    StripJsonFence(body);
    assert Decode(JsonFence + body + Fence, codec) == Some(ToMembers(a));
    FromToMembers(a, codec.repr);
  }

  /** A well-typed reply with no fence yields the record it encodes. */
  lemma AnalyzeUnfencedReply(a: CVAnalysis, cvText: string, body: string, codec: Codec)
    requires a.Unscored()
    requires body != [] && body[0] != '`' && body[|body| - 1] != '`' && NoEdgeSpace(body)
    requires codec.parse(body) == Some(JObj(ToMembers(a)))
    ensures AnalyzeCv(cvText, a.sourceFile, true, Some(body), codec) == a
  {
    StripUnfenced(body);
    assert Decode(body, codec) == Some(ToMembers(a));
    FromToMembers(a, codec.repr);
  }
}
