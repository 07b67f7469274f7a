/** Decoded JSON values and the total coercions `safe_get`, `safe_float` and
    `safe_list` of cv_analyzer.py. */
module Json {
  import opened Wrappers
  import opened PyStr

  /** A value as `json.loads` returns it. An object is the insertion-ordered
      dict the decoder built, so its keys are distinct. */
  datatype JSON =
    | JNull
    | JBool(b: bool)
    | JNum(n: real)
    | JStr(s: string)
    | JArr(items: seq<JSON>)
    | JObj(members: seq<(string, JSON)>)

  /** The external pieces of decoding: `json.loads`, Python's `float()` on a
      string, and `str()` of floats and containers. */
  datatype Codec = Codec(
    parse: string -> Option<JSON>,
    parseFloat: string -> Option<real>,
    repr: JSON -> string)

  /** `dict.get(key)`. */
  function Lookup(members: seq<(string, JSON)>, key: string): (r: Option<JSON>)
    ensures r.None? <==> forall i :: 0 <= i < |members| ==> members[i].0 != key
    ensures r.Some? ==> exists i :: 0 <= i < |members| && members[i] == (key, r.value)
  {
    if members == [] then None
    else if members[0].0 == key then
      assert members[0] == (key, members[0].1);
      Some(members[0].1)
    else
      var r := Lookup(members[1..], key);
      assert r.Some? ==> exists i :: 0 <= i < |members[1..]| && members[1..][i] == (key, r.value);
      r
  }

  /** `get` on members followed by more members looks in the first ones
      first. */
  lemma {:induction false} LookupAppend(a: seq<(string, JSON)>, b: seq<(string, JSON)>, key: string)
    ensures Lookup(a + b, key) == if Lookup(a, key).Some? then Lookup(a, key) else Lookup(b, key)
    decreases |a|
  {
    if a == [] {
      assert a + b == b;
    } else {
      assert (a + b)[0] == a[0] && (a + b)[1..] == a[1..] + b;
      LookupAppend(a[1..], b, key);
    }
  }

  /** No key occurs twice, as in any dict `json.loads` builds: a repeated
      key in the text leaves only its last value. */
  predicate DistinctKeys(members: seq<(string, JSON)>) {
    forall i, j :: 0 <= i < j < |members| ==> members[i].0 != members[j].0
  }

  /** With distinct keys, every entry is what `dict.get` finds under its
      key. */
  lemma {:induction false} LookupDistinct(members: seq<(string, JSON)>, i: nat)
    requires DistinctKeys(members) && i < |members|
    ensures Lookup(members, members[i].0) == Some(members[i].1)
    decreases i
  {
    if i > 0 {
      assert members[1..][i - 1] == members[i];
      assert DistinctKeys(members[1..]) by {
        forall j, k | 0 <= j < k < |members[1..]|
          ensures members[1..][j].0 != members[1..][k].0
        {
          assert members[1..][j] == members[j + 1] && members[1..][k] == members[k + 1];
        }
      }
      LookupDistinct(members[1..], i - 1);
    }
  }

  /** `dict.get(key, default)`. */
  function GetOr(members: seq<(string, JSON)>, key: string, default: JSON): JSON {
    Lookup(members, key).GetOr(default)
  }

  /** Python's `str(v)`: a string is itself, booleans and None have fixed
      spellings, numbers and containers are rendered by `repr`. */
  function Str(v: JSON, repr: JSON -> string): string {
    match v
    case JStr(s) => s
    case JBool(b) => if b then "True" else "False"
    case JNull => "None"
    case _ => repr(v)
  }

  /* ---- safe_get ---- */

  /** `safe_get`: a missing key or a null gives the default; any other value
      gives its `str()`, so an empty string stays empty. */
  function SafeGet(members: seq<(string, JSON)>, key: string, default: string, repr: JSON -> string): (r: string)
    ensures Lookup(members, key) in {None, Some(JNull)} ==> r == default
    ensures forall s :: Lookup(members, key) == Some(JStr(s)) ==> r == s
    ensures forall v :: Lookup(members, key) == Some(v) && v != JNull ==> r == Str(v, repr)
  {
    match Lookup(members, key)
    case None => default
    case Some(v) => if v == JNull then default else Str(v, repr)
  }

  /* ---- safe_float ---- */

  predicate IsNumericChar(c: char) {
    IsDigit(c) || c == '.'
  }

  /** `''.join(c for c in s if c.isdigit() or c == '.')`. */
  function NumericChars(s: string): (r: string)
    ensures forall i :: 0 <= i < |r| ==> IsNumericChar(r[i])
    ensures |r| <= |s|
  {
    if s == [] then []
    else (if IsNumericChar(s[0]) then [s[0]] else []) + NumericChars(s[1..])
  }

  lemma {:induction false} NumericCharsAppend(a: string, b: string)
    ensures NumericChars(a + b) == NumericChars(a) + NumericChars(b)
    decreases |a|
  {
    if a == [] {
      assert a + b == b;
    } else {
      assert (a + b)[0] == a[0];
      assert (a + b)[1..] == a[1..] + b;
      NumericCharsAppend(a[1..], b);
      var h := if IsNumericChar(a[0]) then [a[0]] else [];
      assert h + (NumericChars(a[1..]) + NumericChars(b)) == (h + NumericChars(a[1..])) + NumericChars(b);
    }
  }

  lemma {:induction false} NumericCharsKeeps(s: string)
    requires forall i :: 0 <= i < |s| ==> IsNumericChar(s[i])
    ensures NumericChars(s) == s
    decreases |s|
  {
    if s != [] {
      NumericCharsKeeps(s[1..]);
      assert s == [s[0]] + s[1..];
    }
  }

  lemma {:induction false} NumericCharsDrops(s: string)
    requires forall i :: 0 <= i < |s| ==> !IsNumericChar(s[i])
    ensures NumericChars(s) == []
    decreases |s|
  {
    if s != [] {
      NumericCharsDrops(s[1..]);
    }
  }

  function Pow10(k: nat): (r: nat)
    ensures r >= 1
  {
    if k == 0 then 1 else 10 * Pow10(k - 1)
  }

  function CountChar(s: string, c: char): nat {
    if s == [] then 0 else (if s[0] == c then 1 else 0) + CountChar(s[1..], c)
  }

  function IndexOf(s: string, c: char): (i: nat)
    requires c in s
    ensures i < |s| && s[i] == c && c !in s[..i]
  {
    if s[0] == c then 0 else 1 + IndexOf(s[1..], c)
  }

  lemma {:induction false} NoCharCountZero(s: string, c: char)
    requires c !in s
    ensures CountChar(s, c) == 0
    decreases |s|
  {
    if s != [] {
      NoCharCountZero(s[1..], c);
    }
  }

  /** Python's `float()` on a string of digits and dots: at most one dot and
      at least one digit, else ValueError (None). */
  function ParseDecimal(f: string): (r: Option<real>)
    ensures r.Some? ==> r.value >= 0.0
    ensures f != [] && (forall i :: 0 <= i < |f| ==> IsDigit(f[i])) ==> r == Some(DigitsValue(f) as real)
    ensures CountChar(f, '.') >= 2 ==> r.None?
  {
    if '.' !in f then
      NoCharCountZero(f, '.');
      if f == [] then None else Some(DigitsValue(f) as real)
    else
      var i := IndexOf(f, '.');
      var a, b := f[..i], f[i + 1..];
      assert f == a + ['.'] + b;
      CountSplit(a, b);
      NoCharCountZero(a, '.');
      assert '.' !in b ==> CountChar(b, '.') == 0 by {
        if '.' !in b { NoCharCountZero(b, '.'); }
      }
      ParseParts(a, b)
  }

  /** The digits before and after the one dot. */
  function ParseParts(a: string, b: string): (r: Option<real>)
    ensures r.Some? ==> r.value >= 0.0
    ensures '.' in b ==> r.None?
  {
    if '.' in b || (a == [] && b == []) then None
    else Some(DigitsValue(a) as real + (DigitsValue(b) as real) / (Pow10(|b|) as real))
  }

  lemma NoDotAllDigits(f: string)
    requires forall i :: 0 <= i < |f| ==> IsNumericChar(f[i])
    requires '.' !in f
    ensures forall i :: 0 <= i < |f| ==> IsDigit(f[i])
  {
    forall i | 0 <= i < |f| ensures IsDigit(f[i]) {
      assert f[i] in f;
    }
  }

  lemma {:induction false} CountSplit(a: string, b: string)
    ensures CountChar(a + ['.'] + b, '.') == CountChar(a, '.') + 1 + CountChar(b, '.')
    decreases |a|
  {
    if a == [] {
      assert a + ['.'] + b == ['.'] + b;
      assert (['.'] + b)[1..] == b;
    } else {
      assert (a + ['.'] + b)[1..] == a[1..] + ['.'] + b;
      CountSplit(a[1..], b);
    }
  }

  /** The string branch of `safe_float`. */
  function StringNumber(s: string): (r: real)
    ensures r >= 0.0
  {
    var f := NumericChars(s);
    if f == [] then 0.0 else ParseDecimal(f).GetOr(0.0)
  }

  /** `safe_float`: numbers and booleans convert directly (True is 1.0), a
      string reads its digit-and-dot filter (0.0 when that is empty or not a
      number), anything else is 0.0. Never fails. */
  function SafeFloat(v: JSON): (r: real)
    ensures v.JNum? ==> r == v.n
    ensures v.JBool? ==> r == if v.b then 1.0 else 0.0
    ensures v.JStr? ==> r >= 0.0
    ensures v.JNull? || v.JArr? || v.JObj? ==> r == 0.0
  {
    match v
    case JNum(n) => n
    case JBool(b) => if b then 1.0 else 0.0
    case JStr(s) => StringNumber(s)
    case _ => 0.0
  }

  /** A whole number embedded in text with no other digits or dots ("~5 years")
      is read back exactly. */
  lemma SafeFloatReadsEmbeddedNumber(pre: string, n: nat, post: string)
    requires forall i :: 0 <= i < |pre| ==> !IsNumericChar(pre[i])
    requires forall i :: 0 <= i < |post| ==> !IsNumericChar(post[i])
    ensures SafeFloat(JStr(pre + NatToString(n) + post)) == n as real
  {
    NumericFilterOf(pre, NatToString(n), post);
  }

  lemma NumericFilterOf(pre: string, f: string, post: string)
    requires forall i :: 0 <= i < |pre| ==> !IsNumericChar(pre[i])
    requires forall i :: 0 <= i < |f| ==> IsNumericChar(f[i])
    requires forall i :: 0 <= i < |post| ==> !IsNumericChar(post[i])
    ensures NumericChars(pre + f + post) == f
  {
    NumericCharsAppend(pre + f, post);
    NumericCharsAppend(pre, f);
    NumericCharsDrops(pre);
    NumericCharsDrops(post);
    NumericCharsKeeps(f);
    assert [] + f + [] == f;
  }

  lemma ParseDecimalOf(d: string, frac: string)
    requires d != [] && forall i :: 0 <= i < |d| ==> IsDigit(d[i])
    requires forall i :: 0 <= i < |frac| ==> IsDigit(frac[i])
    ensures forall i :: 0 <= i < |d + "." + frac| ==> IsNumericChar((d + "." + frac)[i])
    ensures ParseDecimal(d + "." + frac)
         == Some(DigitsValue(d) as real + (DigitsValue(frac) as real) / (Pow10(|frac|) as real))
  {
    var f := d + "." + frac;
    assert forall i :: 0 <= i < |f| ==> IsNumericChar(f[i]) by {
      forall i | 0 <= i < |f| ensures IsNumericChar(f[i]) {
        if i < |d| { assert f[i] == d[i]; } else if i > |d| { assert f[i] == frac[i - |d| - 1]; }
      }
    }
    assert f[..|d|] == d && f[|d| + 1..] == frac;
    assert '.' !in d by {
      forall i | 0 <= i < |d| ensures d[i] != '.' { assert IsDigit(d[i]); }
    }
    assert '.' !in frac by {
      forall i | 0 <= i < |frac| ensures frac[i] != '.' { assert IsDigit(frac[i]); }
    }
    IndexOfFirst(f, '.', |d|);
    assert '.' in f;
    assert ParseDecimal(f) == ParseParts(d, frac);
    ParsePartsValue(d, frac);
  }

  lemma ParsePartsValue(a: string, b: string)
    requires '.' !in b && a != []
    ensures ParseParts(a, b) == Some(DigitsValue(a) as real + (DigitsValue(b) as real) / (Pow10(|b|) as real))
  {
  }

  /** A decimal "a.b" embedded in text is read as a + b / 10^|b|. */
  lemma SafeFloatReadsEmbeddedDecimal(pre: string, whole: nat, frac: string, post: string)
    requires forall i :: 0 <= i < |pre| ==> !IsNumericChar(pre[i])
    requires forall i :: 0 <= i < |post| ==> !IsNumericChar(post[i])
    requires forall i :: 0 <= i < |frac| ==> IsDigit(frac[i])
    ensures SafeFloat(JStr(pre + NatToString(whole) + "." + frac + post))
         == whole as real + (DigitsValue(frac) as real) / (Pow10(|frac|) as real)
  {
    var d := NatToString(whole);
    var f := d + "." + frac;
    ParseDecimalOf(d, frac);
    Regroup(pre, d, ".", frac, post);
    NumericFilterOf(pre, f, post);
  }

  lemma Regroup(pre: string, d: string, dot: string, frac: string, post: string)
    ensures pre + d + dot + frac + post == pre + (d + dot + frac) + post
  {
  }

  lemma {:induction false} IndexOfFirst(s: string, c: char, k: nat)
    requires k < |s| && s[k] == c && c !in s[..k]
    ensures IndexOf(s, c) == k
    decreases k
  {
    if k > 0 {
      assert s[0] == s[..k][0];
      assert s[1..][..k - 1] == s[..k][1..];
      IndexOfFirst(s[1..], c, k - 1);
    }
  }

  /** The sign is not a digit: "-5" reads as 5. */
  lemma SafeFloatDropsSign()
    ensures SafeFloat(JStr("-5")) == 5.0
  {
    SafeFloatReadsEmbeddedNumber("-", 5, "");
    assert NatToString(5) == "5";
    assert "-" + "5" + "" == "-5";
  }

  /** A dot alone, or several dots, is not a number: the result is 0.0. */
  lemma SafeFloatRejectsMalformedDecimal()
    ensures SafeFloat(JStr(".")) == 0.0
    ensures SafeFloat(JStr("v1.2.3")) == 0.0
  {
    assert NumericChars(".") == ".";
    NumericCharsKeeps("1.2.3");
    assert NumericChars("v1.2.3") == "1.2.3";
    assert CountChar("1.2.3", '.') == 2;
  }

  /* ---- safe_list ---- */

  /** The non-null items, in order. */
  function NonNull(items: seq<JSON>): (r: seq<JSON>)
    ensures |r| <= |items|
    ensures JNull !in r
    ensures forall x :: x in r ==> x in items
    ensures forall x :: x in items && x != JNull ==> x in r
  {
    if items == [] then []
    else (if items[0] == JNull then [] else [items[0]]) + NonNull(items[1..])
  }

  function StrAll(items: seq<JSON>, repr: JSON -> string): (r: seq<string>)
    ensures |r| == |items|
    ensures forall i :: 0 <= i < |items| ==> r[i] == Str(items[i], repr)
  {
    seq(|items|, i requires 0 <= i < |items| => Str(items[i], repr))
  }

  function Values(members: seq<(string, JSON)>): (r: seq<JSON>)
    ensures |r| == |members|
  {
    seq(|members|, i requires 0 <= i < |members| => members[i].1)
  }

  /** `safe_list`: a list gives its non-null items stringified, an object its
      non-null values, a string its trimmed non-blank comma pieces, another
      scalar a singleton, and null the empty list. */
  function SafeList(v: JSON, repr: JSON -> string): (r: seq<string>)
    ensures v.JNull? ==> r == []
    ensures v.JNum? || v.JBool? ==> r == [Str(v, repr)]
    ensures v.JArr? ==> |r| <= |v.items|
    ensures v.JObj? ==> |r| <= |v.members|
    ensures v.JStr? ==> forall i :: 0 <= i < |r| ==> r[i] != [] && NoEdgeSpace(r[i]) && ',' !in r[i]
  {
    match v
    case JArr(items) => StrAll(NonNull(items), repr)
    case JObj(members) => StrAll(NonNull(Values(members)), repr)
    case JStr(s) => CommaPieces(s)
    case JNull => []
    case _ => [Str(v, repr)]
  }

  function CommaPieces(s: string): (r: seq<string>)
    ensures forall i :: 0 <= i < |r| ==> r[i] != [] && NoEdgeSpace(r[i]) && ',' !in r[i]
  {
    var pieces := Split(s, ',');
    var r := TrimmedPieces(pieces);
    TrimmedPiecesFrom(pieces, ',');
    r
  }

  /** A list of strings decodes to exactly those strings. */
  lemma SafeListOfStrings(xs: seq<string>, repr: JSON -> string)
    ensures SafeList(JArr(seq(|xs|, i requires 0 <= i < |xs| => JStr(xs[i]))), repr) == xs
  {
    var items := seq(|xs|, i requires 0 <= i < |xs| => JStr(xs[i]));
    NonNullKeeps(items);
  }

  lemma {:induction false} NonNullKeeps(items: seq<JSON>)
    requires JNull !in items
    ensures NonNull(items) == items
    decreases |items|
  {
    if items != [] {
      NonNullKeeps(items[1..]);
      assert items == [items[0]] + items[1..];
    }
  }

  /** Filtering the nulls out of two lists in a row is filtering each:
      the order of the kept items and their repetitions are preserved. */
  lemma {:induction false} NonNullAppend(a: seq<JSON>, b: seq<JSON>)
    ensures NonNull(a + b) == NonNull(a) + NonNull(b)
    decreases |a|
  {
    if a == [] {
      assert a + b == b;
    } else {
      assert (a + b)[0] == a[0] && (a + b)[1..] == a[1..] + b;
      NonNullAppend(a[1..], b);
    }
  }

  /** One item is dropped exactly when it is null. */
  lemma NonNullSingle(x: JSON)
    ensures NonNull([x]) == if x == JNull then [] else [x]
  {
    assert [x][1..] == [];
  }

  lemma StrAllAppend(a: seq<JSON>, b: seq<JSON>, repr: JSON -> string)
    ensures StrAll(a + b, repr) == StrAll(a, repr) + StrAll(b, repr)
  {
  }

  /** A list decodes item by item, in order: a null item contributes
      nothing and any other item its `str()`. */
  lemma SafeListCons(x: JSON, ys: seq<JSON>, repr: JSON -> string)
    ensures SafeList(JArr([x] + ys), repr) == (if x == JNull then [] else [Str(x, repr)]) + SafeList(JArr(ys), repr)
  {
    NonNullAppend([x], ys);
    NonNullSingle(x);
    StrAllAppend(NonNull([x]), NonNull(ys), repr);
  }

  /** Decoding two lists in a row is decoding each. */
  lemma SafeListAppend(a: seq<JSON>, b: seq<JSON>, repr: JSON -> string)
    ensures SafeList(JArr(a + b), repr) == SafeList(JArr(a), repr) + SafeList(JArr(b), repr)
  {
    NonNullAppend(a, b);
    StrAllAppend(NonNull(a), NonNull(b), repr);
  }

  /** An object decodes as the list of its values. */
  lemma SafeListObjectIsValues(members: seq<(string, JSON)>, repr: JSON -> string)
    ensures SafeList(JObj(members), repr) == SafeList(JArr(Values(members)), repr)
  {
  }

  lemma StripLeadingSpace(c: char, t: string)
    requires IsSpace(c)
    ensures Strip([c] + t) == Strip(t)
  {
    var s := [c] + t;
    assert s[1..] == t;
    assert SpacePrefix(s) == 1 + SpacePrefix(t);
    assert s[SpacePrefix(s)..] == t[SpacePrefix(t)..];
  }

  /** Splitting "a, b, c" on commas and trimming recovers the items: the
      comma-list decoding undoes `", ".join`. */
  lemma SafeListCommaRoundTrip(xs: seq<string>, repr: JSON -> string)
    requires |xs| >= 1
    requires forall i :: 0 <= i < |xs| ==> xs[i] != [] && NoEdgeSpace(xs[i]) && ',' !in xs[i]
    ensures SafeList(JStr(Join(xs, ", ")), repr) == xs
  {
    CommaJoinRoundTrip(xs);
  }

  lemma {:induction false} CommaJoinRoundTrip(xs: seq<string>)
    requires |xs| >= 1
    requires forall i :: 0 <= i < |xs| ==> xs[i] != [] && NoEdgeSpace(xs[i]) && ',' !in xs[i]
    ensures CommaPieces(Join(xs, ", ")) == xs
    decreases |xs|
  {
    if |xs| == 1 {
      SplitNoSep(xs[0], ',');
      StripKeepsTrimmed(xs[0]);
    } else {
      var rest := Join(xs[1..], ", ");
      assert Join(xs, ", ") == xs[0] + [','] + (" " + rest);
      CommaStep(xs[0], rest);
      CommaJoinRoundTrip(xs[1..]);
      assert xs == [xs[0]] + xs[1..];
    }
  }

  /** A trimmed, comma-free head before ", " is the first piece. */
  lemma CommaStep(h: string, rest: string)
    requires h != [] && NoEdgeSpace(h) && ',' !in h
    ensures CommaPieces(h + [','] + (" " + rest)) == [h] + CommaPieces(rest)
  {
    SplitAtSep(h, ',', " " + rest);
    SpacedSplit(rest);
    TrimmedSpaced(Split(rest, ','));
    TrimmedCons(h, Split(" " + rest, ','));
  }

  lemma SpacedSplit(rest: string)
    ensures Split(" " + rest, ',') == [" " + Split(rest, ',')[0]] + Split(rest, ',')[1..]
  {
    assert (" " + rest)[1..] == rest;
  }

  lemma TrimmedSpaced(t: seq<string>)
    requires |t| >= 1
    ensures TrimmedPieces([" " + t[0]] + t[1..]) == TrimmedPieces(t)
  {
    StripLeadingSpace(' ', t[0]);
    assert ([" " + t[0]] + t[1..])[1..] == t[1..];
  }

  lemma TrimmedCons(h: string, ps: seq<string>)
    requires h != [] && NoEdgeSpace(h)
    ensures TrimmedPieces([h] + ps) == [h] + TrimmedPieces(ps)
  {
    StripKeepsTrimmed(h);
    assert ([h] + ps)[1..] == ps;
  }

  /** A comma-separated string yields its trimmed pieces. */
  lemma SafeListCommaExample(repr: JSON -> string)
    ensures SafeList(JStr("Python, SQL, AWS"), repr) == ["Python", "SQL", "AWS"]
  {
    var xs := ["Python", "SQL", "AWS"];
    assert xs[1..] == ["SQL", "AWS"] && xs[1..][1..] == ["AWS"];
    assert Join(["AWS"], ", ") == "AWS";
    assert Join(["SQL", "AWS"], ", ") == "SQL, AWS";
    assert Join(xs, ", ") == "Python, SQL, AWS";
    SafeListCommaRoundTrip(xs, repr);
  }

  /** An object yields its values, in insertion order. */
  lemma SafeListMapExample(repr: JSON -> string)
    ensures SafeList(JObj([("a", JStr("Python")), ("b", JStr("SQL"))]), repr) == ["Python", "SQL"]
  {
    var m := [("a", JStr("Python")), ("b", JStr("SQL"))];
    assert Values(m) == [JStr("Python"), JStr("SQL")];
    NonNullKeeps(Values(m));
  }
}
