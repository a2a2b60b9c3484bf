/** The string operations the rule language is built from: trimming, searching,
    splitting and reading a signed 32-bit literal. Strings are sequences of
    characters; an index found by one operation is a valid slice point for the others. */
module RuleText {

  import opened Basics

  /** The characters with the Unicode White_Space property. */
  predicate IsSpace(c: char) {
    || '\U{0009}' <= c <= '\U{000D}'
    || c in {'\U{0020}', '\U{0085}', '\U{00A0}', '\U{1680}'}
    || '\U{2000}' <= c <= '\U{200A}'
    || c in {'\U{2028}', '\U{2029}', '\U{202F}', '\U{205F}', '\U{3000}'}
  }

  predicate AllSpace(s: string) {
    forall i | 0 <= i < |s| :: IsSpace(s[i])
  }

  predicate NoSpace(s: string) {
    forall i | 0 <= i < |s| :: !IsSpace(s[i])
  }

  /** Neither end of the string is white space. */
  predicate Tight(s: string) {
    s != "" ==> !IsSpace(s[0]) && !IsSpace(s[|s| - 1])
  }

  // ---------------------------------------------------------------- trimming

  function TrimStart(s: string): (r: string)
    ensures |r| <= |s|
  {
    if s != "" && IsSpace(s[0]) then TrimStart(s[1..]) else s
  }

  function TrimEnd(s: string): (r: string)
    ensures |r| <= |s|
  {
    if s != "" && IsSpace(s[|s| - 1]) then TrimEnd(s[..|s| - 1]) else s
  }

  function Trim(s: string): (r: string)
    ensures |r| <= |s|
  {
    TrimEnd(TrimStart(s))
  }

  lemma {:induction false} TrimStartParts(s: string) returns (pre: string)
    ensures s == pre + TrimStart(s) && AllSpace(pre)
    ensures TrimStart(s) != "" ==> !IsSpace(TrimStart(s)[0])
  {
    pre := "";
    if s != "" && IsSpace(s[0]) {
      pre := TrimStartParts(s[1..]);
      pre := [s[0]] + pre;
      assert s == [s[0]] + s[1..];
    }
  }

  lemma {:induction false} TrimEndParts(s: string) returns (post: string)
    ensures s == TrimEnd(s) + post && AllSpace(post)
    ensures TrimEnd(s) != "" ==> !IsSpace(TrimEnd(s)[|TrimEnd(s)| - 1])
  {
    post := "";
    if s != "" && IsSpace(s[|s| - 1]) {
      post := TrimEndParts(s[..|s| - 1]);
      post := post + [s[|s| - 1]];
      assert s == s[..|s| - 1] + [s[|s| - 1]];
    }
  }

  /** Trim removes exactly a blank prefix and a blank suffix. */
  lemma TrimParts(s: string) returns (pre: string, post: string)
    ensures s == pre + Trim(s) + post
    ensures AllSpace(pre) && AllSpace(post) && Tight(Trim(s))
  {
    pre := TrimStartParts(s);
    post := TrimEndParts(TrimStart(s));
    assert s == pre + (Trim(s) + post);
    if Trim(s) != "" {
      assert Trim(s)[0] == TrimStart(s)[0];
    }
  }

  lemma {:induction false} TrimStartPad(pre: string, t: string)
    requires AllSpace(pre) && (t != "" ==> !IsSpace(t[0]))
    ensures TrimStart(pre + t) == t
  {
    if pre == "" {
      assert pre + t == t;
    } else {
      assert (pre + t)[1..] == pre[1..] + t;
      TrimStartPad(pre[1..], t);
    }
  }

  lemma {:induction false} TrimEndPad(t: string, post: string)
    requires AllSpace(post) && (t != "" ==> !IsSpace(t[|t| - 1]))
    ensures TrimEnd(t + post) == t
  {
    if post == "" {
      assert t + post == t;
    } else {
      assert (t + post)[..|t + post| - 1] == t + post[..|post| - 1];
      TrimEndPad(t, post[..|post| - 1]);
    }
  }

  /** Whatever blank text surrounds a tight string, trimming gives the string back. */
  lemma TrimPad(pre: string, t: string, post: string)
    requires AllSpace(pre) && AllSpace(post) && Tight(t)
    ensures Trim(pre + t + post) == t
  {
    if t == "" {
      assert pre + t + post == (pre + post) + "";
      assert AllSpace(pre + post);
      TrimStartPad(pre + post, "");
    } else {
      assert pre + t + post == pre + (t + post);
      TrimStartPad(pre, t + post);
      TrimEndPad(t, post);
    }
  }

  lemma TrimIdempotent(s: string)
    ensures Trim(Trim(s)) == Trim(s)
  {
    var pre, post := TrimParts(s);
    TrimPad("", Trim(s), "");
    assert "" + Trim(s) + "" == Trim(s);
  }

  // ---------------------------------------------------------------- searching

  predicate OccursAt(s: string, pat: string, i: nat) {
    i + |pat| <= |s| && forall k | 0 <= k < |pat| :: s[i + k] == pat[k]
  }

  function FindFrom(s: string, pat: string, i: nat): (r: Option<nat>)
    ensures r.Some? ==> r.value + |pat| <= |s|
    decreases |s| - i
  {
    if OccursAt(s, pat, i) then Some(i)
    else if i >= |s| then None
    else FindFrom(s, pat, i + 1)
  }

  /** Index of the leftmost occurrence of `pat`, if there is one. */
  function Find(s: string, pat: string): (r: Option<nat>)
    ensures r.Some? ==> r.value + |pat| <= |s|
  {
    FindFrom(s, pat, 0)
  }

  lemma {:induction false} FindFromSound(s: string, pat: string, i: nat)
    requires FindFrom(s, pat, i).Some?
    ensures OccursAt(s, pat, FindFrom(s, pat, i).value)
    decreases |s| - i
  {
    if !OccursAt(s, pat, i) {
      FindFromSound(s, pat, i + 1);
    }
  }

  lemma {:induction false} FindFromLeftmost(s: string, pat: string, i: nat, j: nat)
    requires i <= j && OccursAt(s, pat, j)
    ensures FindFrom(s, pat, i).Some? && FindFrom(s, pat, i).value <= j
    decreases |s| - i
  {
    if !OccursAt(s, pat, i) {
      FindFromLeftmost(s, pat, i + 1, j);
    }
  }

  /** A found index is an occurrence. */
  lemma FindSound(s: string, pat: string)
    requires Find(s, pat).Some?
    ensures OccursAt(s, pat, Find(s, pat).value)
  {
    FindFromSound(s, pat, 0);
  }

  /** No occurrence lies to the left of the one found, and one that exists is found. */
  lemma FindLeftmost(s: string, pat: string, i: nat)
    requires OccursAt(s, pat, i)
    ensures Find(s, pat).Some? && Find(s, pat).value <= i
  {
    FindFromLeftmost(s, pat, 0, i);
  }

  predicate Contains(s: string, pat: string) {
    Find(s, pat).Some?
  }

  lemma FindIs(s: string, pat: string, i: nat)
    requires OccursAt(s, pat, i)
    requires forall j: nat :: j < i ==> !OccursAt(s, pat, j)
    ensures Find(s, pat) == Some(i)
  {
    FindLeftmost(s, pat, i);
    FindSound(s, pat);
  }

  /** A string without one of the pattern's characters does not contain the pattern. */
  lemma FindNoneByChar(s: string, pat: string, c: char)
    requires c in pat && c !in s
    ensures Find(s, pat) == None
  {
    if Find(s, pat).Some? {
      FindSound(s, pat);
    }
  }

  lemma OccursInSlice(s: string, pat: string, lo: nat, hi: nat, i: nat)
    requires lo <= hi <= |s| && i + |pat| <= hi - lo
    ensures OccursAt(s[lo..hi], pat, i) <==> OccursAt(s, pat, lo + i)
  {
    forall k | 0 <= k < |pat|
      ensures s[lo..hi][i + k] == pat[k] <==> s[lo + i + k] == pat[k]
    {}
  }

  lemma SliceContains(s: string, pat: string, lo: nat, hi: nat)
    requires lo <= hi <= |s|
    ensures Contains(s[lo..hi], pat) ==> Contains(s, pat)
  {
    if Contains(s[lo..hi], pat) {
      var i := Find(s[lo..hi], pat).value;
      FindSound(s[lo..hi], pat);
      OccursInSlice(s, pat, lo, hi, i);
      FindLeftmost(s, pat, lo + i);
    }
  }

  lemma TrimContains(s: string, pat: string)
    ensures Contains(Trim(s), pat) ==> Contains(s, pat)
  {
    var pre, post := TrimParts(s);
    assert Trim(s) == s[|pre|..|pre| + |Trim(s)|];
    SliceContains(s, pat, |pre|, |pre| + |Trim(s)|);
  }

  /** Blank text in front moves the leftmost occurrence and nothing else. */
  lemma FindAfterBlank(pre: string, t: string, pat: string)
    requires AllSpace(pre) && pat != "" && NoSpace(pat)
    ensures Find(pre + t, pat) == match Find(t, pat) case None => None case Some(i) => Some(|pre| + i)
  {
    var s, n := pre + t, |pre|;
    assert t == s[n..|s|];
    if Find(s, pat).Some? {
      var i := Find(s, pat).value;
      FindSound(s, pat);
      assert s[i + 0] == pat[0];
      assert i >= n;
      OccursInSlice(s, pat, n, |s|, i - n);
      FindLeftmost(t, pat, i - n);
    }
    if Find(t, pat).Some? {
      var j := Find(t, pat).value;
      FindSound(t, pat);
      OccursInSlice(s, pat, n, |s|, j);
      FindLeftmost(s, pat, n + j);
    }
  }

  /** Blank text behind changes no occurrence. */
  lemma FindBeforeBlank(t: string, post: string, pat: string)
    requires AllSpace(post) && pat != "" && NoSpace(pat)
    ensures Find(t + post, pat) == Find(t, pat)
  {
    var s := t + post;
    assert t == s[0..|t|];
    if Find(s, pat).Some? {
      var i, k := Find(s, pat).value, |pat| - 1;
      FindSound(s, pat);
      assert s[i + k] == pat[k];
      assert i + k < |t|;
      OccursInSlice(s, pat, 0, |t|, i);
      FindLeftmost(t, pat, i);
    }
    if Find(t, pat).Some? {
      var j := Find(t, pat).value;
      FindSound(t, pat);
      OccursInSlice(s, pat, 0, |t|, j);
      FindLeftmost(s, pat, j);
    }
  }

  // ---------------------------------------------------------------- splitting

  /** The pieces between the non-overlapping occurrences of `pat`, found left to right. */
  function Split(s: string, pat: string): (parts: seq<string>)
    requires pat != ""
    ensures parts != []
    ensures forall i | 0 <= i < |parts| :: |parts[i]| <= |s|
    ensures Contains(s, pat) ==> forall i | 0 <= i < |parts| :: |parts[i]| < |s|
    decreases |s|
  {
    match Find(s, pat)
    case None => [s]
    case Some(i) => [s[..i]] + Split(s[i + |pat|..], pat)
  }

  lemma {:induction false} SplitFree(s: string, pat: string, k: nat)
    requires pat != "" && k < |Split(s, pat)|
    ensures !Contains(Split(s, pat)[k], pat)
    decreases |s|
  {
    match Find(s, pat)
    case None =>
    case Some(i) =>
      var head, rest := s[..i], s[i + |pat|..];
      SplitSome(s, pat, i, head, rest);
      if k > 0 {
        SplitFree(rest, pat, k - 1);
      } else {
        HeadFree(s, pat);
      }
  }

  lemma HeadFree(s: string, pat: string)
    requires pat != "" && Find(s, pat).Some?
    ensures !Contains(s[..Find(s, pat).value], pat)
  {
    var i := Find(s, pat).value;
    if Contains(s[..i], pat) {
      var j := Find(s[..i], pat).value;
      FindSound(s[..i], pat);
      assert s[..i] == s[0..i];
      OccursInSlice(s, pat, 0, i, j);
      FindLeftmost(s, pat, j);
    }
  }

  lemma HeadLacks(s: string, q: string, i: nat)
    requires i <= |s| && !Contains(s, q)
    ensures !Contains(s[..i], q)
  {
    assert s[..i] == s[0..i];
    SliceContains(s, q, 0, i);
  }

  lemma TailLacks(s: string, q: string, i: nat)
    requires i <= |s| && !Contains(s, q)
    ensures !Contains(s[i..], q)
  {
    assert s[i..] == s[i..|s|];
    SliceContains(s, q, i, |s|);
  }

  /** A piece contains no text that the whole string does not contain. */
  lemma {:induction false} SplitLacks(s: string, pat: string, k: nat, q: string)
    requires pat != "" && k < |Split(s, pat)| && !Contains(s, q)
    ensures !Contains(Split(s, pat)[k], q)
    decreases |s|
  {
    match Find(s, pat)
    case None =>
    case Some(i) =>
      var head, rest := s[..i], s[i + |pat|..];
      SplitSome(s, pat, i, head, rest);
      if k == 0 {
        HeadLacks(s, q, i);
      } else {
        TailLacks(s, q, i + |pat|);
        SplitLacks(rest, pat, k - 1, q);
      }
  }

  function Join(parts: seq<string>, sep: string): string
    requires parts != []
  {
    if |parts| == 1 then parts[0] else parts[0] + sep + Join(parts[1..], sep)
  }

  lemma JoinCons(head: string, tail: seq<string>, sep: string)
    requires tail != []
    ensures Join([head] + tail, sep) == head + sep + Join(tail, sep)
  {
    assert ([head] + tail)[1..] == tail;
  }

  /** Joining the pieces with the separator rebuilds the string. */
  lemma {:induction false} JoinSplit(s: string, pat: string)
    requires pat != ""
    ensures Join(Split(s, pat), pat) == s
    decreases |s|
  {
    match Find(s, pat)
    case None =>
    case Some(i) =>
      var rest := s[i + |pat|..];
      JoinSplit(rest, pat);
      JoinCons(s[..i], Split(rest, pat), pat);
      FindSound(s, pat);
      assert s[i..i + |pat|] == pat;
      assert s == s[..i] + s[i..i + |pat|] + rest;
  }

  lemma FindSeparator(part: string, c: char, rest: string)
    requires c !in part
    ensures Find(part + [c, c] + rest, [c, c]) == Some(|part|)
  {
    var s, pat := part + [c, c] + rest, [c, c];
    assert OccursAt(s, pat, |part|);
    forall j: nat | j < |part|
      ensures !OccursAt(s, pat, j)
    {
      assert part[j] in part;
      assert s[j + 0] == part[j] != pat[0];
    }
    FindIs(s, pat, |part|);
  }

  /** Pieces that share no character with a separator of one repeated character come back
      from a join exactly as they went in. */
  lemma {:induction false} SplitJoin(parts: seq<string>, c: char)
    requires parts != [] && forall i | 0 <= i < |parts| :: c !in parts[i]
    ensures Split(Join(parts, [c, c]), [c, c]) == parts
    decreases |parts|
  {
    var pat := [c, c];
    if |parts| == 1 {
      FindNoneByChar(parts[0], pat, c);
    } else {
      var rest := Join(parts[1..], pat);
      var s := parts[0] + pat + rest;
      FindSeparator(parts[0], c, rest);
      assert s[..|parts[0]|] == parts[0];
      assert s[|parts[0]| + 2..] == rest;
      SplitSome(s, pat, |parts[0]|, parts[0], rest);
      SplitJoin(parts[1..], c);
    }
  }

  function PadFirst(pre: string, parts: seq<string>): (r: seq<string>)
    requires parts != []
    ensures |r| == |parts| && r[0] == pre + parts[0] && forall i | 0 < i < |r| :: r[i] == parts[i]
  {
    parts[0 := pre + parts[0]]
  }

  function PadLast(parts: seq<string>, post: string): (r: seq<string>)
    requires parts != []
    ensures |r| == |parts| && r[|r| - 1] == parts[|r| - 1] + post
    ensures forall i | 0 <= i < |r| - 1 :: r[i] == parts[i]
  {
    parts[|parts| - 1 := parts[|parts| - 1] + post]
  }

  lemma PadLastCons(head: string, parts: seq<string>, post: string)
    requires parts != []
    ensures [head] + PadLast(parts, post) == PadLast([head] + parts, post)
  {}

  lemma PadFirstCons(pre: string, head: string, parts: seq<string>)
    ensures [pre + head] + parts == PadFirst(pre, [head] + parts)
  {}

  lemma SplitSome(s: string, pat: string, i: nat, head: string, rest: string)
    requires pat != "" && Find(s, pat) == Some(i) && head == s[..i] && rest == s[i + |pat|..]
    ensures Split(s, pat) == [head] + Split(rest, pat)
  {}

  lemma {:induction false} SplitBeforeBlank(t: string, post: string, pat: string)
    requires AllSpace(post) && pat != "" && NoSpace(pat)
    ensures Split(t + post, pat) == PadLast(Split(t, pat), post)
    decreases |t|
  {
    FindBeforeBlank(t, post, pat);
    match Find(t, pat)
    case None =>
      assert Split(t, pat) == [t];
      assert Split(t + post, pat) == [t + post];
    case Some(i) =>
      var head, rest := t[..i], t[i + |pat|..];
      SplitSome(t, pat, i, head, rest);
      SplitSome(t + post, pat, i, head, rest + post);
      SplitBeforeBlank(rest, post, pat);
      PadLastCons(head, Split(rest, pat), post);
  }

  lemma SplitAfterBlank(pre: string, t: string, pat: string)
    requires AllSpace(pre) && pat != "" && NoSpace(pat)
    ensures Split(pre + t, pat) == PadFirst(pre, Split(t, pat))
  {
    FindAfterBlank(pre, t, pat);
    match Find(t, pat)
    case None =>
      assert Split(t, pat) == [t];
      assert Split(pre + t, pat) == [pre + t];
    case Some(i) =>
      var head, rest := t[..i], t[i + |pat|..];
      SplitSome(t, pat, i, head, rest);
      SplitSome(pre + t, pat, |pre| + i, pre + head, rest);
      PadFirstCons(pre, head, Split(rest, pat));
  }

  lemma TrimBlankEnds(pre: string, t: string, post: string)
    requires AllSpace(pre) && AllSpace(post)
    ensures Trim(pre + t + post) == Trim(t)
  {
    var a, b := TrimParts(t);
    assert pre + t + post == (pre + a) + Trim(t) + (b + post);
    TrimPad(pre + a, Trim(t), b + post);
  }

  lemma PaddedTrims(pre: string, parts: seq<string>, post: string)
    requires AllSpace(pre) && AllSpace(post) && parts != []
    ensures var padded := PadLast(PadFirst(pre, parts), post);
            forall i | 0 <= i < |parts| :: Trim(padded[i]) == Trim(parts[i])
  {
    var b := PadFirst(pre, parts);
    var c := PadLast(b, post);
    forall i | 0 <= i < |parts|
      ensures Trim(c[i]) == Trim(parts[i])
    {
      var x := if i == 0 then pre else "";
      var y := if i == |c| - 1 then post else "";
      assert b[i] == x + parts[i];
      assert c[i] == b[i] + y;
      TrimBlankEnds(x, parts[i], y);
    }
  }

  /** Surrounding blank text ends up in the outer pieces only, where trimming removes it. */
  lemma SplitOfPadded(pre: string, t: string, post: string, pat: string)
    requires AllSpace(pre) && AllSpace(post) && pat != "" && NoSpace(pat)
    ensures |Split(pre + t + post, pat)| == |Split(t, pat)|
    ensures forall i | 0 <= i < |Split(t, pat)| :: Trim(Split(pre + t + post, pat)[i]) == Trim(Split(t, pat)[i])
  {
    var a, b, c := Split(t, pat), Split(pre + t, pat), Split(pre + t + post, pat);
    SplitAfterBlank(pre, t, pat);
    SplitBeforeBlank(pre + t, post, pat);
    PaddedTrims(pre, a, post);
  }

  /** Trimming a string first and then its pieces is the same as trimming the pieces alone. */
  lemma SplitOfTrim(s: string, pat: string)
    requires pat != "" && NoSpace(pat)
    ensures |Split(Trim(s), pat)| == |Split(s, pat)|
    ensures forall i | 0 <= i < |Split(s, pat)| :: Trim(Split(Trim(s), pat)[i]) == Trim(Split(s, pat)[i])
  {
    var pre, post := TrimParts(s);
    SplitOfPadded(pre, Trim(s), post, pat);
  }

  // ---------------------------------------------------------------- literals

  predicate IsDigit(c: char) { '0' <= c <= '9' }

  function DigitsValue(s: string): (r: Option<nat>)
    ensures r.Some? <==> forall i | 0 <= i < |s| :: IsDigit(s[i])
  {
    if s == "" then Some(0)
    else
      match DigitsValue(s[..|s| - 1])
      case None => None
      case Some(v) =>
        var c := s[|s| - 1];
        if IsDigit(c) then Some(10 * v + (c as int - '0' as int)) else None
  }

  /** An optional sign, at least one digit, and a value that fits in 32 signed bits. */
  function ParseI32(s: string): (r: Option<i32>)
    ensures r.Some? ==> s != "" && forall c | c in s :: IsDigit(c) || c in "+-"
  {
    if s == "" then None
    else
      var signed := s[0] in "+-";
      var digits := if signed then s[1..] else s;
      if digits == "" then None
      else
        match DigitsValue(digits)
        case None => None
        case Some(v) =>
          var m: int := v;
          var n := if s[0] == '-' then -m else m;
          if I32_MIN <= n <= I32_MAX then Some(n) else None
  }

  function PrintNat(n: nat): (s: string)
    ensures s != "" && forall c | c in s :: IsDigit(c)
  {
    var last := ['0' + (n % 10) as char];
    if n < 10 then last else PrintNat(n / 10) + last
  }

  function PrintI32(n: i32): string {
    var v: int := n;
    if v < 0 then "-" + PrintNat(-v) else PrintNat(v)
  }

  lemma {:induction false} DigitsOfPrint(n: nat)
    ensures DigitsValue(PrintNat(n)) == Some(n)
    decreases n
  {
    var s := PrintNat(n);
    if n >= 10 {
      DigitsOfPrint(n / 10);
      assert s[..|s| - 1] == PrintNat(n / 10);
    } else {
      assert s[..|s| - 1] == "";
    }
  }

  lemma ParseUnsigned(s: string, v: nat)
    requires s != "" && DigitsValue(s) == Some(v) && v <= I32_MAX
    ensures ParseI32(s) == Some(v)
  {
    assert IsDigit(s[0]);
  }

  lemma ParseNegative(s: string, v: nat)
    requires s != "" && DigitsValue(s) == Some(v) && v <= -I32_MIN
    ensures ParseI32("-" + s) == Some(0 - v)
  {
    assert ("-" + s)[1..] == s;
  }

  lemma ParsePrint(n: i32)
    ensures ParseI32(PrintI32(n)) == Some(n)
  {
    var v: int := n;
    if v < 0 {
      DigitsOfPrint(-v);
      ParseNegative(PrintNat(-v), -v);
    } else {
      DigitsOfPrint(v);
      ParseUnsigned(PrintNat(v), v);
    }
  }

  /** Some way of writing a literal. */
  lemma Numeral(n: i32) returns (s: string)
    ensures ParseI32(s) == Some(n)
  {
    s := PrintI32(n);
    ParsePrint(n);
  }
}
