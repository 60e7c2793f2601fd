/** The reference Python client (example/client.py): its Cookie header,
    rewritten by updateCookies and read back by the parsing loop in
    start_from_list and next_question; clean_string; and the start of
    answerQuestion (the code it submits, the status check and the secret
    it keeps). */
module Client {
  import opened Wrappers
  import opened Json
  import opened Text

  /** Client.important_cookies: the Go list without `__cf_bm`. */
  const ImportantCookies: seq<string> := ["AWSALB", "AWSALBCORS", "JSESSIONID", "guid"]

  /** The Cookie header the class starts with. */
  const InitialCookieHeader := "AWSALB=123; guid=123; JSESSIONID=123"

  /** The code answerQuestion falls back to. */
  const FallbackCode := "abc123"

  // ---------------------------------------------------------------------
  // updateCookies

  /** A response cookie dictionary, in insertion order. */
  type Diction = seq<(string, string)>

  predicate Important(key: string) {
    key in ImportantCookies
  }

  /** The entries whose key is important, in order. */
  function Kept(d: Diction): (r: Diction)
    ensures forall i :: 0 <= i < |r| ==> Important(r[i].0)
    ensures forall p :: p in r ==> p in d
  {
    if d == [] then []
    else (if Important(d[0].0) then [d[0]] else []) + Kept(d[1..])
  }

  /** Kept keeps exactly the important entries of `d`. */
  lemma {:induction false} KeptExactly(d: Diction)
    ensures forall p :: p in Kept(d) <==> p in d && Important(p.0)
  {
    if d != [] {
      KeptExactly(d[1..]);
      assert forall p :: p in d <==> p == d[0] || p in d[1..];
    }
  }

  /** Kept filters in dictionary order: an entry added at the end is kept
      after all earlier kept entries exactly when its key is important. */
  lemma {:induction false} KeptAppend(d: Diction, p: (string, string))
    ensures Kept(d + [p]) == Kept(d) + (if Important(p.0) then [p] else [])
  {
    if d == [] {
      assert Kept([p]) == (if Important(p.0) then [p] else []) + Kept([]);
    } else {
      assert (d + [p])[0] == d[0];
      assert (d + [p])[1..] == d[1..] + [p];
      KeptAppend(d[1..], p);
    }
  }

  /** `key=value` */
  function Entry(p: (string, string)): string {
    p.0 + "=" + p.1
  }

  function Entries(d: Diction): seq<string> {
    seq(|d|, i requires 0 <= i < |d| => Entry(d[i]))
  }

  /** What the loop of updateCookies accumulates: `key=value; ` per
      important entry. */
  function Accumulated(d: Diction): string {
    if d == [] then ""
    else (if Important(d[0].0) then Entry(d[0]) + "; " else "") + Accumulated(d[1..])
  }

  /** Python's `s[:-1]`. */
  function DropLast(s: string): string {
    if s == [] then [] else s[..|s| - 1]
  }

  /** The header updateCookies writes: the accumulation, stripped, without
      its last character. */
  function UpdatedHeader(d: Diction): string {
    DropLast(Trim(Accumulated(d), PyIsSpace))
  }

  lemma {:induction false} AccumulatedIsJoin(d: Diction)
    ensures Accumulated(d) == if Kept(d) == [] then "" else Join(Entries(Kept(d)), "; ") + "; "
  {
    if d != [] {
      AccumulatedIsJoin(d[1..]);
      var k := Kept(d[1..]);
      if !Important(d[0].0) {
        assert Kept(d) == k;
      } else if k == [] {
        assert Kept(d) == [d[0]];
        assert Entries(Kept(d)) == [Entry(d[0])];
      } else {
        assert Kept(d) == [d[0]] + k;
        assert Entries(Kept(d))[0] == Entry(d[0]);
        assert Entries(Kept(d))[1..] == Entries(k);
      }
    }
  }

  /** updateCookies writes the important entries as `key=value` joined by
      "; ", with no trailing separator, in dictionary order; with no
      important entry it writes "". The old header plays no part. */
  lemma UpdatedHeaderIsJoin(d: Diction)
    ensures UpdatedHeader(d) == if Kept(d) == [] then "" else Join(Entries(Kept(d)), "; ")
  {
    AccumulatedIsJoin(d);
    var k := Kept(d);
    if k != [] {
      FirstEntryNotSpace(k);
      StripSeparator(Join(Entries(k), "; "));
    }
  }

  /** The header starts with an important key, so not with whitespace. */
  lemma FirstEntryNotSpace(k: Diction)
    requires k != [] && forall i :: 0 <= i < |k| ==> Important(k[i].0)
    ensures var j := Join(Entries(k), "; "); j != [] && !PyIsSpace(j[0])
  {
    assert Important(k[0].0);
    var key := k[0].0;
    assert key[0] == 'A' || key[0] == 'J' || key[0] == 'g';
    assert Entries(k)[0] == key + "=" + k[0].1;
    JoinStartsWith(Entries(k), "; ");
  }

  /** Stripping `j + "; "` and dropping the last character gives `j` back
      when `j` does not start with whitespace. */
  lemma StripSeparator(j: string)
    requires j != [] && !PyIsSpace(j[0])
    ensures DropLast(Trim(j + "; ", PyIsSpace)) == j
  {
    var s := j + "; ";
    var t := j + ";";
    assert s[0] == j[0];
    assert TrimLeft(s, PyIsSpace) == s;
    assert s[|s| - 1] == ' ' && s[..|s| - 1] == t;
    assert TrimRight(s, PyIsSpace) == TrimRight(t, PyIsSpace);
    assert t[|t| - 1] == ';';
    assert !PyIsSpace(';');
    assert TrimRight(t, PyIsSpace) == t;
    assert t[..|t| - 1] == j;
  }

  lemma {:induction false} JoinStartsWith(parts: seq<string>, sep: string)
    requires parts != [] && parts[0] != []
    ensures Join(parts, sep) != [] && Join(parts, sep)[0] == parts[0][0]
  {
  }

  /** The loop of updateCookies: `key=value; ` for each important entry. */
  method AccumulateCookies(diction: Diction) returns (newCookies: string)
    ensures newCookies == Accumulated(diction)
  {
    newCookies := "";
    for i := 0 to |diction|
      invariant newCookies + Accumulated(diction[i..]) == Accumulated(diction)
    {
      ghost var rest := diction[i..];
      assert rest[0] == diction[i] && rest[1..] == diction[i + 1..];
      ghost var before := newCookies;
      var (key, value) := diction[i];
      if key in ImportantCookies {
        newCookies := newCookies + key + "=" + value + "; ";
        assert newCookies == before + (Entry(diction[i]) + "; ");
      }
    }
    assert diction[|diction|..] == [];
  }

  // ---------------------------------------------------------------------
  // The Cookie-header parsing loop

  /** `key, value = piece.split('=')`: exactly two parts, else ValueError. */
  function ParsePiece(piece: string): Option<(string, string)> {
    var parts := Split(piece, "=");
    if |parts| == 2 then Some((parts[0], parts[1])) else None
  }

  /** Adds the parsed `pieces` to `cookies`, later keys overwriting earlier
      ones; None at the first piece that does not parse. */
  function ParsePieces(pieces: seq<string>, cookies: map<string, string>): Option<map<string, string>> {
    if pieces == [] then Some(cookies)
    else
      match ParsePiece(pieces[0])
      case None => None
      case Some(kv) => ParsePieces(pieces[1..], cookies[kv.0 := kv.1])
  }

  /** The cookie dictionary the client sends, read from the Cookie header. */
  function ParseCookieHeader(header: string): Option<map<string, string>> {
    ParsePieces(Split(header, "; "), map[])
  }

  /** The parsing loop of start_from_list and next_question. */
  method CookiesOfHeader(header: string) returns (cookies: Option<map<string, string>>)
    ensures cookies == ParseCookieHeader(header)
  {
    var pieces := Split(header, "; ");
    var jar: map<string, string> := map[];
    for i := 0 to |pieces|
      invariant ParsePieces(pieces[i..], jar) == ParseCookieHeader(header)
    {
      assert pieces[i..][0] == pieces[i] && pieces[i..][1..] == pieces[i + 1..];
      var parts := Split(pieces[i], "=");
      if |parts| != 2 {
        return None;
      }
      jar := jar[parts[0] := parts[1]];
    }
    return Some(jar);
  }

  /** The dictionary the entries describe, later keys overwriting earlier
      ones, on top of `m`. */
  function Overwrite(m: map<string, string>, d: Diction): map<string, string>
    decreases |d|
  {
    if d == [] then m else Overwrite(m[d[0].0 := d[0].1], d[1..])
  }

  /** A header the client never wrote, such as the empty one, can fail to
      parse: "" holds no `=`. */
  lemma EmptyHeaderFails()
    ensures ParseCookieHeader("") == None
  {
    assert IndexOf("", "; ") == None;
    assert IndexOf("", "=") == None;
  }

  lemma {:induction false} ParseEntries(d: Diction, m: map<string, string>)
    requires forall i :: 0 <= i < |d| ==> Free(d[i].0, "=") && Free(d[i].1, "=")
    ensures ParsePieces(Entries(d), m) == Some(Overwrite(m, d))
  {
    if d != [] {
      assert Join([d[0].0, d[0].1], "=") == Entry(d[0]);
      SplitJoin([d[0].0, d[0].1], "=");
      assert Entries(d)[1..] == Entries(d[1..]);
      ParseEntries(d[1..], m[d[0].0 := d[0].1]);
    }
  }

  /** Parsing the header updateCookies wrote gives back the important
      entries as a dictionary, when keys and values hold neither "=" nor
      "; " and some entry is important. */
  lemma UpdateThenParse(d: Diction)
    requires Kept(d) != []
    requires forall p :: p in d ==> Free(p.0, "=") && Free(p.1, "=") && Free(p.0, "; ") && Free(p.1, "; ")
    ensures ParseCookieHeader(UpdatedHeader(d)) == Some(Overwrite(map[], Kept(d)))
  {
    var k := Kept(d);
    UpdatedHeaderIsJoin(d);
    forall i | 0 <= i < |k| ensures Free(Entries(k)[i], "; ") {
      assert k[i] in d;
      FreeAround(k[i].0, '=', k[i].1, "; ");
    }
    SplitJoin(Entries(k), "; ");
    forall i | 0 <= i < |k| ensures Free(k[i].0, "=") && Free(k[i].1, "=") {
      assert k[i] in d;
    }
    ParseEntries(k, map[]);
  }

  // ---------------------------------------------------------------------
  // clean_string

  /** `s.replace(c, t)` for a single character `c`. */
  function Replace(s: string, c: char, t: string): string {
    if s == [] then []
    else (if s[0] == c then t else [s[0]]) + Replace(s[1..], c, t)
  }

  /** clean_string: a string is stripped, loses its `\r` and `\n` and has
      each `\t` turned into a space; anything else, None included, comes
      back unchanged. */
  function CleanString(v: Json): Json {
    match v
    case JString(s) => JString(Replace(Replace(Replace(Trim(s, PyIsSpace), '\r', ""), '\n', ""), '\t', " "))
    case _ => v
  }

  /** What clean_string does to one character of the stripped string. */
  function CleanChar(c: char): string {
    if c == '\r' || c == '\n' then "" else if c == '\t' then " " else [c]
  }

  /** The per-character reference for the replacement chain. */
  function CleanChars(s: string): (r: string)
    ensures forall i :: 0 <= i < |r| ==> r[i] != '\r' && r[i] != '\n' && r[i] != '\t'
  {
    if s == [] then [] else CleanChar(s[0]) + CleanChars(s[1..])
  }

  lemma {:induction false} ReplaceChain(s: string)
    ensures Replace(Replace(Replace(s, '\r', ""), '\n', ""), '\t', " ") == CleanChars(s)
  {
    if s != [] {
      ReplaceChain(s[1..]);
      var a := Replace(s[1..], '\r', "");
      var b := Replace(a, '\n', "");
      ReplaceAppend(CleanChar1(s[0]), a, '\n', "");
      ReplaceAppend(CleanChar2(s[0]), b, '\t', " ");
    }
  }

  /** The first replacement on one character. */
  function CleanChar1(c: char): string {
    if c == '\r' then "" else [c]
  }

  /** The first two replacements on one character. */
  function CleanChar2(c: char): string {
    if c == '\r' || c == '\n' then "" else [c]
  }

  lemma {:induction false} ReplaceAppend(a: string, b: string, c: char, t: string)
    ensures Replace(a + b, c, t) == Replace(a, c, t) + Replace(b, c, t)
  {
    if a != [] {
      assert (a + b)[0] == a[0];
      assert (a + b)[1..] == a[1..] + b;
      ReplaceAppend(a[1..], b, c, t);
      var x := if a[0] == c then t else [a[0]];
      calc {
        Replace(a + b, c, t);
        x + Replace(a[1..] + b, c, t);
        x + (Replace(a[1..], c, t) + Replace(b, c, t));
        (x + Replace(a[1..], c, t)) + Replace(b, c, t);
        Replace(a, c, t) + Replace(b, c, t);
      }
    } else {
      assert a + b == b;
    }
  }

  lemma {:induction false} CleanCharsAppend(a: string, b: string)
    ensures CleanChars(a + b) == CleanChars(a) + CleanChars(b)
  {
    if a != [] {
      assert (a + b)[0] == a[0];
      assert (a + b)[1..] == a[1..] + b;
      CleanCharsAppend(a[1..], b);
      calc {
        CleanChars(a + b);
        CleanChar(a[0]) + CleanChars(a[1..] + b);
        CleanChar(a[0]) + (CleanChars(a[1..]) + CleanChars(b));
        (CleanChar(a[0]) + CleanChars(a[1..])) + CleanChars(b);
      }
    } else {
      assert a + b == b;
    }
  }

  lemma {:induction false} CleanCharsUntouched(s: string)
    requires forall i :: 0 <= i < |s| ==> s[i] != '\r' && s[i] != '\n' && s[i] != '\t'
    ensures CleanChars(s) == s
  {
    if s != [] {
      CleanCharsUntouched(s[1..]);
    }
  }

  /** Cleaning keeps the end characters when they are not `\r`, `\n` or `\t`. */
  lemma CleanCharsEnds(t: string)
    requires t != [] && t[0] != '\r' && t[0] != '\n' && t[0] != '\t'
    requires t[|t| - 1] != '\r' && t[|t| - 1] != '\n' && t[|t| - 1] != '\t'
    ensures var r := CleanChars(t); r != [] && r[0] == t[0] && r[|r| - 1] == t[|t| - 1]
  {
    var n := |t|;
    assert t == t[..n - 1] + [t[n - 1]];
    CleanCharsAppend(t[..n - 1], [t[n - 1]]);
    assert CleanChars([t[n - 1]]) == [t[n - 1]];
    if n == 1 {
      assert CleanChars(t) == [t[0]];
    } else {
      assert CleanChars(t) == [t[0]] + CleanChars(t[1..]);
    }
  }

  /** clean_string on a string: the stripped string with each character
      cleaned; no `\r`, `\n` or `\t` is left and neither end is whitespace. */
  lemma CleanStringSpec(s: string)
    ensures CleanString(JString(s)) == JString(CleanChars(Trim(s, PyIsSpace)))
    ensures var r := CleanString(JString(s)).s;
      && (forall i :: 0 <= i < |r| ==> r[i] != '\r' && r[i] != '\n' && r[i] != '\t')
      && (r == [] || (!PyIsSpace(r[0]) && !PyIsSpace(r[|r| - 1])))
  {
    var t := Trim(s, PyIsSpace);
    ReplaceChain(t);
    TrimEnds(s, PyIsSpace);
    if t != [] {
      CleanCharsEnds(t);
    }
  }

  /** It does not collapse interior whitespace: a string whose ends are not
      whitespace and that holds no `\r`, `\n` or `\t` comes back as it is
      ("a  b" keeps both spaces). */
  lemma CleanStringKeeps(s: string)
    requires s == [] || (!PyIsSpace(s[0]) && !PyIsSpace(s[|s| - 1]))
    requires forall i :: 0 <= i < |s| ==> s[i] != '\r' && s[i] != '\n' && s[i] != '\t'
    ensures CleanString(JString(s)) == JString(s)
  {
    if s != [] {
      TrimUntouched(s, PyIsSpace);
    }
    ReplaceChain(s);
    CleanCharsUntouched(s);
  }

  lemma CleanStringIdempotent(v: Json)
    ensures CleanString(CleanString(v)) == CleanString(v)
  {
    if v.JString? {
      CleanStringSpec(v.s);
      CleanStringKeeps(CleanString(v).s);
    }
  }

  // ---------------------------------------------------------------------
  // answerQuestion

  /** `answer["answer"]["code"]`, or the fallback when any step of the
      lookup raises. */
  function AnswerCode(answer: Json): Json {
    if answer.JObject? && "answer" in answer.fields && answer.fields["answer"].JObject?
       && "code" in answer.fields["answer"].fields
    then answer.fields["answer"].fields["code"]
    else JString(FallbackCode)
  }

  /** The form answerQuestion posts. */
  function AnswerPayload(secret: Json, rt: int, answer: Json): map<string, Json> {
    map["secret" := secret, "v" := JNumber(3 as real), "rt" := JNumber(rt as real), "a" := AnswerCode(answer)]
  }

  /** answerQuestion submits the code the oracle named when its reply has
      one, whatever else the reply holds, and the fallback code for any
      reply without it; the form has exactly the four fields. */
  lemma AnswerPayloadSpec(secret: Json, rt: int, inner: map<string, Json>, rest: map<string, Json>, other: Json)
    requires "code" in inner
    requires !(other.JObject? && "answer" in other.fields && other.fields["answer"].JObject? && "code" in other.fields["answer"].fields)
    ensures var p := AnswerPayload(secret, rt, JObject(rest["answer" := JObject(inner)]));
      p.Keys == {"secret", "v", "rt", "a"} && p["secret"] == secret && p["a"] == inner["code"]
    ensures AnswerPayload(secret, rt, other)["a"] == JString(FallbackCode)
  {
  }

  // ---------------------------------------------------------------------
  // The client

  /** The class-level `headers` dictionary, of which only the Cookie entry
      is modelled. Every Client shares it. */
  class Headers {
    var cookie: string

    constructor ()
      ensures cookie == InitialCookieHeader
    {
      cookie := InitialCookieHeader;
    }
  }

  class Client {
    const headers: Headers
    var secret: Json

    constructor (headers: Headers)
      ensures this.headers == headers && secret == JString("")
    {
      this.headers := headers;
      secret := JString("");
    }

    /** updateCookies: rewrites the shared Cookie header from `diction`. */
    method UpdateCookies(diction: Diction)
      modifies headers
      ensures headers.cookie == UpdatedHeader(diction)
    {
      var newCookies := AccumulateCookies(diction);
      headers.cookie := DropLast(Trim(newCookies, PyIsSpace));
    }

    /** The cookies a request of this client carries. */
    method RequestCookies() returns (cookies: Option<map<string, string>>)
      ensures cookies == ParseCookieHeader(headers.cookie)
    {
      cookies := CookiesOfHeader(headers.cookie);
    }

    /** The start of answerQuestion: the form it posts, the exception on a
        status other than 200, and the secret it keeps from the reply
        (a KeyError when there is none). */
    method AnswerQuestion(answer: Json, rt: int, status: int, body: map<string, Json>) returns (sent: map<string, Json>, outcome: Result<(), string>)
      modifies this
      ensures sent == AnswerPayload(old(secret), rt, answer)
      ensures outcome.Success? <==> status == 200 && "secret" in body
      ensures secret == if outcome.Success? then body["secret"] else old(secret)
    {
      var correctAnswer := AnswerCode(answer);
      sent := map["secret" := secret, "v" := JNumber(3 as real), "rt" := JNumber(rt as real), "a" := correctAnswer];
      if status != 200 {
        return sent, Failure("ERROR");
      }
      if "secret" !in body {
        return sent, Failure("KeyError: 'secret'");
      }
      secret := body["secret"];
      return sent, Success(());
    }
  }
}
