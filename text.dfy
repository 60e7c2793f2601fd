/** String handling shared by the Go client and the Python client: Go's
    unicode.IsSpace, strings.TrimSpace, strings.Fields and strings.Join,
    Python's str.isspace and str.strip, and splitting on a separator the way
    Python's str.split(sep) does. */
module Text {
  import opened Wrappers

  /** Go's unicode.IsSpace: the Latin-1 spaces and the other code points of
      the Unicode White_Space property. */
  predicate IsSpace(c: char) {
    c == '\t' || c == '\n' || c == '\U{B}' || c == '\U{C}' || c == '\r' || c == ' '
    || c == '\U{85}' || c == '\U{A0}' || c == '\U{1680}'
    || ('\U{2000}' <= c <= '\U{200A}')
    || c == '\U{2028}' || c == '\U{2029}' || c == '\U{202F}' || c == '\U{205F}' || c == '\U{3000}'
  }

  /** Python's str.isspace for one character: Go's set plus the four
      information separators U+001C..U+001F. */
  predicate PyIsSpace(c: char) {
    IsSpace(c) || ('\U{1C}' <= c <= '\U{1F}')
  }

  /** Drops the leading characters that satisfy `ws`. */
  function TrimLeft(s: string, ws: char -> bool): (r: string)
    ensures |r| <= |s| && r == s[|s| - |r|..]
    ensures r == [] || !ws(r[0])
    ensures forall i :: 0 <= i < |s| - |r| ==> ws(s[i])
  {
    if s != [] && ws(s[0]) then TrimLeft(s[1..], ws) else s
  }

  /** Drops the trailing characters that satisfy `ws`. */
  function TrimRight(s: string, ws: char -> bool): (r: string)
    ensures |r| <= |s| && r == s[..|r|]
    ensures r == [] || !ws(r[|r| - 1])
    ensures forall i :: |r| <= i < |s| ==> ws(s[i])
  {
    if s != [] && ws(s[|s| - 1]) then TrimRight(s[..|s| - 1], ws) else s
  }

  /** Trims both ends: strings.TrimSpace with IsSpace, str.strip() with PyIsSpace. */
  function Trim(s: string, ws: char -> bool): string {
    TrimRight(TrimLeft(s, ws), ws)
  }

  lemma TrimEnds(s: string, ws: char -> bool)
    ensures var r := Trim(s, ws); r == [] || (!ws(r[0]) && !ws(r[|r| - 1]))
  {
    var l := TrimLeft(s, ws);
    var r := TrimRight(l, ws);
    if r != [] {
      assert r[0] == l[0];
    }
  }

  /** Trimming a string whose ends are already not whitespace changes nothing. */
  lemma TrimUntouched(s: string, ws: char -> bool)
    requires s != [] && !ws(s[0]) && !ws(s[|s| - 1])
    ensures Trim(s, ws) == s
  {
  }

  /** A word: a non-empty run of non-space characters. */
  predicate IsWord(w: string) {
    w != [] && forall i :: 0 <= i < |w| ==> !IsSpace(w[i])
  }

  /** The longest prefix of `s` without a space. */
  function LeadingWord(s: string): (w: string)
    ensures |w| <= |s| && w == s[..|w|]
    ensures forall i :: 0 <= i < |w| ==> !IsSpace(w[i])
    ensures |w| < |s| ==> IsSpace(s[|w|])
    ensures s != [] && !IsSpace(s[0]) ==> |w| >= 1
  {
    if s == [] || IsSpace(s[0]) then [] else [s[0]] + LeadingWord(s[1..])
  }

  /** strings.Fields: the maximal runs of non-space characters, in order. */
  function Fields(s: string): (ws: seq<string>)
    ensures forall i :: 0 <= i < |ws| ==> IsWord(ws[i])
    decreases |s|
  {
    if s == [] then []
    else if IsSpace(s[0]) then Fields(s[1..])
    else
      var w := LeadingWord(s);
      [w] + Fields(s[|w|..])
  }

  /** strings.Join. */
  function Join(parts: seq<string>, sep: string): string {
    if |parts| == 0 then ""
    else if |parts| == 1 then parts[0]
    else parts[0] + sep + Join(parts[1..], sep)
  }

  /** stripExtraWhiteSpace (utils/utils.go): trim, split into fields, join
      the fields with one space. */
  function StripExtraWhiteSpace(s: string): string {
    Join(Fields(Trim(s, IsSpace)), " ")
  }

  // ---------------------------------------------------------------------
  // Fields and trimming

  lemma {:induction false} LeadingWordOf(w: string, t: string)
    requires forall i :: 0 <= i < |w| ==> !IsSpace(w[i])
    requires t == [] || IsSpace(t[0])
    ensures LeadingWord(w + t) == w
  {
    if w != [] {
      assert (w + t)[1..] == w[1..] + t;
      LeadingWordOf(w[1..], t);
    } else {
      assert w + t == t;
    }
  }

  lemma {:induction false} FieldsOfLeftTrimmed(s: string)
    ensures Fields(TrimLeft(s, IsSpace)) == Fields(s)
  {
    if s != [] && IsSpace(s[0]) {
      FieldsOfLeftTrimmed(s[1..]);
    }
  }

  /** Appending one space does not change the fields. */
  lemma {:induction false} FieldsSpaceAppended(s: string, c: char)
    requires IsSpace(c)
    ensures Fields(s + [c]) == Fields(s)
    decreases |s|
  {
    if s == [] {
      assert Fields([c]) == Fields([]);
    } else if IsSpace(s[0]) {
      assert (s + [c])[1..] == s[1..] + [c];
      FieldsSpaceAppended(s[1..], c);
    } else {
      var w := LeadingWord(s);
      if |w| < |s| {
        LeadingWordOf(w, s[|w|..] + [c]);
        assert s + [c] == w + (s[|w|..] + [c]);
      } else {
        LeadingWordOf(w, [c]);
        assert s + [c] == w + [c];
      }
      assert LeadingWord(s + [c]) == w;
      assert (s + [c])[|w|..] == s[|w|..] + [c];
      FieldsSpaceAppended(s[|w|..], c);
    }
  }

  lemma {:induction false} FieldsOfRightTrimmed(s: string)
    ensures Fields(TrimRight(s, IsSpace)) == Fields(s)
    decreases |s|
  {
    if s != [] && IsSpace(s[|s| - 1]) {
      var p := s[..|s| - 1];
      assert s == p + [s[|s| - 1]];
      FieldsSpaceAppended(p, s[|s| - 1]);
      FieldsOfRightTrimmed(p);
    }
  }

  /** TrimSpace before Fields is redundant: the words are those of the input. */
  lemma FieldsOfTrimmed(s: string)
    ensures Fields(Trim(s, IsSpace)) == Fields(s)
  {
    FieldsOfRightTrimmed(TrimLeft(s, IsSpace));
    FieldsOfLeftTrimmed(s);
  }

  /** Fields undoes a single-space join of words. */
  lemma {:induction false} FieldsOfJoin(ws: seq<string>)
    requires forall i :: 0 <= i < |ws| ==> IsWord(ws[i])
    ensures Fields(Join(ws, " ")) == ws
  {
    if |ws| == 1 {
      LeadingWordOf(ws[0], []);
      assert ws[0] + [] == ws[0];
      assert ws[0][|ws[0]|..] == [];
    } else if |ws| > 1 {
      var w, rest := ws[0], Join(ws[1..], " ");
      var s := w + " " + rest;
      LeadingWordOf(w, " " + rest);
      assert s == w + (" " + rest);
      assert s[|w|..] == " " + rest;
      assert (" " + rest)[1..] == rest;
      FieldsOfJoin(ws[1..]);
      assert Fields(s) == [w] + Fields(" " + rest);
    }
  }

  /** A single-space join of words is empty or starts and ends with a
      non-space, holds no space other than ' ', and never two in a row. */
  lemma {:induction false} JoinOfWordsShape(ws: seq<string>)
    requires forall i :: 0 <= i < |ws| ==> IsWord(ws[i])
    ensures var r := Join(ws, " ");
      && (ws == [] <==> r == [])
      && (r != [] ==> !IsSpace(r[0]) && !IsSpace(r[|r| - 1]))
      && (forall i :: 0 <= i < |r| && IsSpace(r[i]) ==> r[i] == ' ')
      && (forall i :: 0 <= i < |r| - 1 ==> !IsSpace(r[i]) || !IsSpace(r[i + 1]))
  {
    if |ws| > 1 {
      var w, rest := ws[0], Join(ws[1..], " ");
      JoinOfWordsShape(ws[1..]);
      var r := w + " " + rest;
      assert r == Join(ws, " ");
      forall i | 0 <= i < |r| ensures IsSpace(r[i]) ==> r[i] == ' ' {
        if i < |w| { assert r[i] == w[i]; }
        else if i > |w| { assert r[i] == rest[i - |w| - 1]; }
      }
      forall i | 0 <= i < |r| - 1 ensures !IsSpace(r[i]) || !IsSpace(r[i + 1]) {
        if i < |w| { assert r[i] == w[i]; }
        else if i == |w| { assert r[i + 1] == rest[0]; }
        else { assert r[i] == rest[i - |w| - 1]; assert r[i + 1] == rest[i - |w|]; }
      }
    }
  }

  /** stripExtraWhiteSpace keeps the words of its input in order and puts
      exactly one ' ' between consecutive words, with nothing at the ends. */
  lemma StripExtraWhiteSpaceSpec(s: string)
    ensures var r := StripExtraWhiteSpace(s);
      && Fields(r) == Fields(s)
      && (r == [] <==> Fields(s) == [])
      && (r != [] ==> !IsSpace(r[0]) && !IsSpace(r[|r| - 1]))
      && (forall i :: 0 <= i < |r| && IsSpace(r[i]) ==> r[i] == ' ')
      && (forall i :: 0 <= i < |r| - 1 ==> !IsSpace(r[i]) || !IsSpace(r[i + 1]))
  {
    FieldsOfTrimmed(s);
    FieldsOfJoin(Fields(s));
    JoinOfWordsShape(Fields(s));
  }

  /** stripExtraWhiteSpace is idempotent. */
  lemma StripExtraWhiteSpaceIdempotent(s: string)
    ensures StripExtraWhiteSpace(StripExtraWhiteSpace(s)) == StripExtraWhiteSpace(s)
  {
    var r := StripExtraWhiteSpace(s);
    StripExtraWhiteSpaceSpec(s);
    FieldsOfTrimmed(s);
    FieldsOfTrimmed(r);
  }

  // ---------------------------------------------------------------------
  // Splitting on a separator

  /** `sep` occurs in `s` at position `j`. */
  predicate OccursAt(s: string, sep: string, j: nat) {
    j + |sep| <= |s| && s[j..j + |sep|] == sep
  }

  /** `sep` occurs nowhere in `s`. */
  predicate Free(s: string, sep: string) {
    forall j: nat :: j <= |s| ==> !OccursAt(s, sep, j)
  }

  lemma OccursShift(s: string, sep: string, j: nat)
    requires s != []
    ensures OccursAt(s, sep, j + 1) <==> OccursAt(s[1..], sep, j)
  {
    if j + 1 + |sep| <= |s| {
      assert s[j + 1..j + 1 + |sep|] == s[1..][j..j + |sep|];
    }
  }

  /** The first position where `sep` occurs in `s`, if any. */
  function IndexOf(s: string, sep: string): (r: Option<nat>)
    requires sep != []
    ensures r.Some? ==> OccursAt(s, sep, r.value)
    ensures r.Some? ==> forall j: nat :: j < r.value ==> !OccursAt(s, sep, j)
    ensures r.None? ==> Free(s, sep)
    decreases |s|
  {
    if |s| < |sep| then None
    else if s[..|sep|] == sep then Some(0)
    else
      var rest := IndexOf(s[1..], sep);
      assert !OccursAt(s, sep, 0);
      forall j: nat | 0 < j ensures OccursAt(s, sep, j) <==> OccursAt(s[1..], sep, j - 1) {
        OccursShift(s, sep, j - 1);
      }
      match rest
      case None => None
      case Some(j) => Some(j + 1)
  }

  /** The text before the first occurrence of `sep` does not hold `sep`,
      and the string is that text, `sep` and the rest. */
  lemma SplitAtFirst(s: string, sep: string, i: nat)
    requires sep != [] && OccursAt(s, sep, i)
    requires forall j: nat :: j < i ==> !OccursAt(s, sep, j)
    ensures Free(s[..i], sep)
    ensures s == s[..i] + sep + s[i + |sep|..]
  {
    FreeBefore(s, sep, i);
    var tail := s[i + |sep|..];
    assert s[i..] == s[i..i + |sep|] + tail;
    assert s == s[..i] + s[i..];
  }

  /** A prefix that ends before the first occurrence does not hold it. */
  lemma FreeBefore(s: string, sep: string, i: nat)
    requires sep != [] && i <= |s| && forall j: nat :: j < i ==> !OccursAt(s, sep, j)
    ensures Free(s[..i], sep)
  {
    var p := s[..i];
    forall j: nat | j <= |p| ensures !OccursAt(p, sep, j) {
      if j + |sep| <= |p| {
        assert p[j..j + |sep|] == s[j..j + |sep|];
        assert !OccursAt(s, sep, j);
      }
    }
  }

  /** Python's str.split(sep) for a non-empty separator: the pieces between
      the leftmost non-overlapping occurrences. No piece holds the separator,
      and joining the pieces with it gives back the string. */
  function Split(s: string, sep: string): (parts: seq<string>)
    requires sep != []
    ensures |parts| >= 1
    ensures forall i :: 0 <= i < |parts| ==> Free(parts[i], sep)
    ensures Join(parts, sep) == s
    decreases |s|
  {
    match IndexOf(s, sep)
    case None => [s]
    case Some(i) =>
      var rest := Split(s[i + |sep|..], sep);
      SplitAtFirst(s, sep, i);
      [s[..i]] + rest
  }

  /** A separator whose first character does not recur in it cannot overlap
      itself ("; ", ";" and "=" are such separators). */
  predicate Unbordered(sep: string) {
    sep != [] && forall k :: 1 <= k < |sep| ==> sep[k] != sep[0]
  }

  lemma FirstOccurrenceAfter(p: string, sep: string, rest: string)
    requires Unbordered(sep) && Free(p, sep)
    ensures IndexOf(p + sep + rest, sep) == Some(|p|)
  {
    var t := p + sep + rest;
    assert t[|p|..|p| + |sep|] == sep;
    assert OccursAt(t, sep, |p|);
    forall j: nat | j < |p| ensures !OccursAt(t, sep, j) {
      if j + |sep| <= |p| {
        assert t[j..j + |sep|] == p[j..j + |sep|];
        assert !OccursAt(p, sep, j);
      } else {
        var k := |p| - j;
        assert t[j..j + |sep|][k] == t[|p|] == sep[0];
        assert sep[k] != sep[0];
      }
    }
  }

  /** Splitting undoes joining when no part contains the separator. */
  lemma {:induction false} SplitJoin(parts: seq<string>, sep: string)
    requires Unbordered(sep) && |parts| >= 1
    requires forall i :: 0 <= i < |parts| ==> Free(parts[i], sep)
    ensures Split(Join(parts, sep), sep) == parts
  {
    if |parts| == 1 {
      assert IndexOf(parts[0], sep) == None;
    } else {
      var rest := Join(parts[1..], sep);
      FirstOccurrenceAfter(parts[0], sep, rest);
      var t := parts[0] + sep + rest;
      assert t[..|parts[0]|] == parts[0];
      assert t[|parts[0]| + |sep|..] == rest;
      SplitJoin(parts[1..], sep);
    }
  }

  /** Putting a character that is neither separator character between two
      strings free of a two-character separator leaves the result free of it. */
  lemma FreeAround(a: string, c: char, b: string, sep: string)
    requires |sep| == 2 && c != sep[0] && c != sep[1]
    requires Free(a, sep) && Free(b, sep)
    ensures Free(a + [c] + b, sep)
  {
    var t := a + [c] + b;
    forall j: nat ensures !OccursAt(t, sep, j) {
      if j + 2 <= |a| {
        assert t[j..j + 2] == a[j..j + 2];
        assert !OccursAt(a, sep, j);
      } else if j + 1 == |a| {
        assert j + 2 <= |t| && t[j..j + 2][1] == c;
      } else if j == |a| {
        assert j + 2 <= |t| ==> t[j..j + 2][0] == c;
      } else if j + 2 <= |t| {
        assert t[j..j + 2] == b[j - |a| - 1..j - |a| + 1];
        assert !OccursAt(b, sep, j - |a| - 1);
      }
    }
  }
}
