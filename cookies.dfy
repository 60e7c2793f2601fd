/** The cookie jar of utils/utils.go: the allow-list (isImportantCookie),
    the name-keyed merge of server cookies into the jar (RetrieveCookies)
    and the Cookie header rendering (GetCookiesString). */
module Cookies {
  import opened Wrappers
  import opened Text

  /** cycletls.Cookie; the incoming net/http cookies carry the same fields
      and RetrieveCookies copies every one of them, so one type serves both.
      `expires` stands for the time.Time `Expires`. */
  datatype Cookie = Cookie(
    name: string,
    value: string,
    domain: string,
    path: string,
    expires: int,
    rawExpires: string,
    maxAge: int,
    secure: bool,
    httpOnly: bool,
    sameSite: int,
    raw: string,
    unparsed: seq<string>)

  /** IMPORTANT_COOKIES, in the order the Go source lists them. */
  const ImportantCookies: seq<string> := ["AWSALB", "AWSALBCORS", "JSESSIONID", "guid", "__cf_bm"]

  /** Linear search of a list of names. */
  function Contains(list: seq<string>, x: string): (r: bool)
    ensures r <==> x in list
  {
    if list == [] then false else list[0] == x || Contains(list[1..], x)
  }

  /** isImportantCookie: the name is one of the five session cookies. */
  function IsImportantCookie(name: string): (r: bool)
    ensures r <==> name in {"AWSALB", "AWSALBCORS", "JSESSIONID", "guid", "__cf_bm"}
  {
    Contains(ImportantCookies, name)
  }

  // ---------------------------------------------------------------------
  // Rendering

  function Pair(c: Cookie): string {
    c.name + "=" + c.value
  }

  /** The Cookie header GetCookiesString builds: `name=value;` per cookie, in order. */
  function Render(cs: seq<Cookie>): string {
    if cs == [] then "" else Pair(cs[0]) + ";" + Render(cs[1..])
  }

  lemma {:induction false} RenderAppend(cs: seq<Cookie>, c: Cookie)
    ensures Render(cs + [c]) == Render(cs) + Pair(c) + ";"
  {
    if cs == [] {
      assert Render([c]) == Pair(c) + ";" + Render([]);
    } else {
      assert (cs + [c])[1..] == cs[1..] + [c];
      RenderAppend(cs[1..], c);
    }
  }

  /** GetCookiesString: fails only for a nil list; otherwise the in-order
      concatenation of `name=value;` (so an empty non-nil list gives ""). */
  method GetCookiesString(cookies: Option<seq<Cookie>>) returns (r: Result<string, string>)
    ensures r.Failure? <==> cookies.None?
    ensures cookies.Some? ==> r == Success(Render(cookies.value))
  {
    if cookies.Some? {
      var cs := cookies.value;
      var cookieHeader := "";
      var i := 0;
      while i < |cs|
        invariant 0 <= i <= |cs|
        invariant cookieHeader == Render(cs[..i])
      {
        RenderAppend(cs[..i], cs[i]);
        assert cs[..i + 1] == cs[..i] + [cs[i]];
        cookieHeader := cookieHeader + cs[i].name + "=" + cs[i].value + ";";
        i := i + 1;
      }
      assert cs[..i] == cs;
      return Success(cookieHeader);
    }
    return Failure("no cookies found");
  }

  lemma FreeOfChar(s: string, c: char)
    requires c !in s
    ensures Free(s, [c])
  {
    forall j: nat | j <= |s| ensures !OccursAt(s, [c], j) {
      if j + 1 <= |s| {
        assert s[j..j + 1][0] == s[j];
      }
    }
  }

  /** The header splits back into the cookies' `name=value` pairs on ';'
      (with the empty piece after the final ';'), and each pair splits back
      into its name and value on '=', when neither contains ';' or '='. */
  lemma {:induction false} RenderSplits(cs: seq<Cookie>)
    requires forall c :: c in cs ==> ';' !in c.name && ';' !in c.value && '=' !in c.name && '=' !in c.value
    ensures Split(Render(cs), ";") == seq(|cs|, i requires 0 <= i < |cs| => Pair(cs[i])) + [""]
    ensures forall c :: c in cs ==> Split(Pair(c), "=") == [c.name, c.value]
  {
    var pieces := seq(|cs|, i requires 0 <= i < |cs| => Pair(cs[i]));
    RenderIsJoin(cs);
    forall i | 0 <= i < |pieces + [""]| ensures Free((pieces + [""])[i], ";") {
      if i < |cs| {
        var c := cs[i];
        assert c in cs;
        assert ';' !in Pair(c) by {
          assert Pair(c) == c.name + "=" + c.value;
        }
        FreeOfChar(Pair(c), ';');
      } else {
        FreeOfChar("", ';');
      }
    }
    SplitJoin(pieces + [""], ";");
    forall c | c in cs ensures Split(Pair(c), "=") == [c.name, c.value] {
      FreeOfChar(c.name, '=');
      FreeOfChar(c.value, '=');
      assert Join([c.name, c.value], "=") == Pair(c);
      SplitJoin([c.name, c.value], "=");
    }
  }

  lemma {:induction false} RenderIsJoin(cs: seq<Cookie>)
    ensures Render(cs) == Join(seq(|cs|, i requires 0 <= i < |cs| => Pair(cs[i])) + [""], ";")
  {
    var pieces := seq(|cs|, i requires 0 <= i < |cs| => Pair(cs[i]));
    if cs != [] {
      RenderIsJoin(cs[1..]);
      var rest := seq(|cs| - 1, i requires 0 <= i < |cs| - 1 => Pair(cs[1..][i]));
      assert (pieces + [""])[1..] == rest + [""];
    }
  }

  // ---------------------------------------------------------------------
  // Merging

  /** Every entry of the jar is filed under its own name. */
  predicate KeyedByName(m: map<string, Cookie>) {
    forall k :: k in m ==> m[k].name == k
  }

  /** Files each cookie of `cs` under its name in `base`, in order, so that a
      later cookie of the same name replaces an earlier one. */
  function Indexed(base: map<string, Cookie>, cs: seq<Cookie>): map<string, Cookie> {
    if cs == [] then base
    else Indexed(base, cs[..|cs| - 1])[cs[|cs| - 1].name := cs[|cs| - 1]]
  }

  lemma {:induction false} IndexedKeyed(base: map<string, Cookie>, cs: seq<Cookie>)
    requires KeyedByName(base)
    ensures KeyedByName(Indexed(base, cs))
  {
    if cs != [] {
      IndexedKeyed(base, cs[..|cs| - 1]);
    }
  }

  /** The last cookie of `cs` named `n`, if any: the reference the merge is
      checked against. */
  function LastNamed(cs: seq<Cookie>, n: string): (r: Option<Cookie>)
    ensures r.Some? ==> r.value in cs && r.value.name == n
    ensures r.Some? ==>
      exists i :: 0 <= i < |cs| && cs[i] == r.value && forall j :: i < j < |cs| ==> cs[j].name != n
    ensures r.None? ==> forall c :: c in cs ==> c.name != n
  {
    if cs == [] then None
    else if cs[|cs| - 1].name == n then Some(cs[|cs| - 1])
    else
      var init := cs[..|cs| - 1];
      var r := LastNamed(init, n);
      if r.Some? then
        var i :| 0 <= i < |init| && init[i] == r.value && forall j :: i < j < |init| ==> init[j].name != n;
        assert cs[i] == r.value && forall j :: i < j < |cs| ==> cs[j].name != n;
        r
      else
        assert forall c :: c in cs ==> c in init || c == cs[|cs| - 1];
        r
  }

  /** The cookies of `cs` whose names are on the allow-list, in order. */
  function Allowed(cs: seq<Cookie>): (r: seq<Cookie>)
    ensures forall c :: c in r ==> c in cs && IsImportantCookie(c.name)
  {
    if cs == [] then []
    else
      var last := cs[|cs| - 1];
      Allowed(cs[..|cs| - 1]) + (if IsImportantCookie(last.name) then [last] else [])
  }

  /** The jar a list of cookies stands for: each name filed with the last
      cookie of that name. */
  function JarOf(cs: seq<Cookie>): (m: map<string, Cookie>)
    ensures KeyedByName(m)
  {
    IndexedKeyed(map[], cs);
    Indexed(map[], cs)
  }

  /** A jar after a response: the response's allow-listed cookies filed over
      it, in order. */
  function Absorb(jar: map<string, Cookie>, incoming: seq<Cookie>): map<string, Cookie> {
    Indexed(jar, Allowed(incoming))
  }

  /** The jar RetrieveCookies builds: the existing cookies by name, then the
      allow-listed incoming cookies over them. */
  function Merged(existing: seq<Cookie>, incoming: seq<Cookie>): map<string, Cookie> {
    Absorb(JarOf(existing), incoming)
  }

  lemma {:induction false} IndexedLookup(base: map<string, Cookie>, cs: seq<Cookie>, k: string)
    requires KeyedByName(base)
    ensures k in Indexed(base, cs) <==> k in base || LastNamed(cs, k).Some?
    ensures k in Indexed(base, cs) ==>
      Indexed(base, cs)[k] == if LastNamed(cs, k).Some? then LastNamed(cs, k).value else base[k]
  {
    if cs != [] {
      IndexedLookup(base, cs[..|cs| - 1], k);
    }
  }

  lemma {:induction false} AllowedLookup(cs: seq<Cookie>, k: string)
    ensures LastNamed(Allowed(cs), k) == if IsImportantCookie(k) then LastNamed(cs, k) else None
  {
    if cs != [] {
      var last := cs[|cs| - 1];
      var init := cs[..|cs| - 1];
      AllowedLookup(init, k);
      if IsImportantCookie(last.name) {
        assert Allowed(cs)[..|Allowed(cs)| - 1] == Allowed(init);
      } else {
        assert Allowed(cs) == Allowed(init);
      }
    }
  }

  /** RetrieveCookies keeps every existing name (unfiltered), adds an
      incoming name only if it is allow-listed, and for each name keeps the
      last allow-listed incoming cookie, else the last existing one. */
  lemma MergedLookup(existing: seq<Cookie>, incoming: seq<Cookie>, k: string)
    ensures k in Merged(existing, incoming) <==>
      (exists c :: c in existing && c.name == k) || (IsImportantCookie(k) && exists c :: c in incoming && c.name == k)
    ensures k in Merged(existing, incoming) ==>
      Merged(existing, incoming)[k] ==
        (if IsImportantCookie(k) && LastNamed(incoming, k).Some? then LastNamed(incoming, k).value
         else LastNamed(existing, k).value)
  {
    IndexedLookup(map[], existing, k);
    IndexedLookup(JarOf(existing), Allowed(incoming), k);
    AllowedLookup(incoming, k);
  }

  /** No two cookies of `cs` share a name. */
  predicate DistinctNames(cs: seq<Cookie>) {
    forall i, j :: 0 <= i < j < |cs| ==> cs[i].name != cs[j].name
  }

  /** `out` lists each entry of `m` exactly once, in some order. */
  predicate Enumerates(out: seq<Cookie>, m: map<string, Cookie>) {
    && (forall i :: 0 <= i < |out| ==> out[i].name in m && m[out[i].name] == out[i])
    && (forall k :: k in m ==> exists i :: 0 <= i < |out| && out[i].name == k)
    && DistinctNames(out)
  }

  /** A list that enumerates a jar stands for exactly that jar. */
  lemma EnumeratedJar(out: seq<Cookie>, m: map<string, Cookie>)
    requires Enumerates(out, m)
    ensures JarOf(out) == m
  {
    forall k ensures (k in JarOf(out) <==> k in m) && (k in m ==> JarOf(out)[k] == m[k]) {
      IndexedLookup(map[], out, k);
      var r := LastNamed(out, k);
      if r.Some? {
        var i :| 0 <= i < |out| && out[i] == r.value && forall j :: i < j < |out| ==> out[j].name != k;
        assert out[i].name == k;
      }
    }
    assert JarOf(out).Keys == m.Keys;
  }

  /** `j1` keeps every name of `j0`, and the cookies that are not on the
      allow-list are the same in both. */
  predicate Grown(j0: map<string, Cookie>, j1: map<string, Cookie>) {
    && j0.Keys <= j1.Keys
    && forall k :: k in j0 && !IsImportantCookie(k) ==> j1[k] == j0[k]
  }

  lemma {:induction false} IndexedGrows(base: map<string, Cookie>, cs: seq<Cookie>)
    requires forall c :: c in cs ==> IsImportantCookie(c.name)
    ensures Grown(base, Indexed(base, cs))
  {
    if cs != [] {
      var init := cs[..|cs| - 1];
      assert forall c :: c in init ==> c in cs;
      IndexedGrows(base, init);
    }
  }

  /** A response never removes a cookie from the jar, and can only replace
      cookies on the allow-list. */
  lemma AbsorbGrows(jar: map<string, Cookie>, incoming: seq<Cookie>)
    ensures Grown(jar, Absorb(jar, incoming))
  {
    IndexedGrows(jar, Allowed(incoming));
  }

  lemma GrownTransitive(j0: map<string, Cookie>, j1: map<string, Cookie>, j2: map<string, Cookie>)
    requires Grown(j0, j1) && Grown(j1, j2)
    ensures Grown(j0, j2)
  {
  }

  lemma IndexedStep(base: map<string, Cookie>, cs: seq<Cookie>, c: Cookie)
    requires KeyedByName(base)
    ensures Indexed(base, cs + [c]) == Indexed(base, cs)[c.name := c]
  {
    assert (cs + [c])[..|cs|] == cs;
  }

  lemma AllowedStep(cs: seq<Cookie>, c: Cookie)
    ensures Allowed(cs + [c]) == Allowed(cs) + (if IsImportantCookie(c.name) then [c] else [])
  {
    assert (cs + [c])[..|cs|] == cs;
  }

  /** RetrieveCookies: fills a name-keyed map from the existing cookies, then
      from the allow-listed incoming ones, then lists the map's entries in
      Go's (unspecified) map iteration order. */
  method RetrieveCookies(cookies: seq<Cookie>, existingCookies: seq<Cookie>) returns (newCookies: seq<Cookie>)
    ensures Enumerates(newCookies, Merged(existingCookies, cookies))
  {
    var newCookiesMap: map<string, Cookie> := map[];
    for i := 0 to |existingCookies|
      invariant newCookiesMap == Indexed(map[], existingCookies[..i])
    {
      IndexedStep(map[], existingCookies[..i], existingCookies[i]);
      assert existingCookies[..i + 1] == existingCookies[..i] + [existingCookies[i]];
      newCookiesMap := newCookiesMap[existingCookies[i].name := existingCookies[i]];
    }
    assert existingCookies[..|existingCookies|] == existingCookies;
    assert newCookiesMap == JarOf(existingCookies);
    ghost var base := newCookiesMap;
    ghost var kept: seq<Cookie> := [];
    for i := 0 to |cookies|
      invariant kept == Allowed(cookies[..i])
      invariant KeyedByName(base) && newCookiesMap == Indexed(base, kept)
    {
      assert cookies[..i + 1] == cookies[..i] + [cookies[i]];
      AllowedStep(cookies[..i], cookies[i]);
      if IsImportantCookie(cookies[i].name) {
        IndexedStep(base, kept, cookies[i]);
        kept := kept + [cookies[i]];
        newCookiesMap := newCookiesMap[cookies[i].name := cookies[i]];
      }
    }
    assert cookies[..|cookies|] == cookies;
    IndexedKeyed(base, kept);
    newCookies := ListEntries(newCookiesMap);
  }

  /** The final loop of RetrieveCookies: appends the map's entries in Go's
      map iteration order, which is unspecified (any order may come out). */
  method ListEntries(m: map<string, Cookie>) returns (out: seq<Cookie>)
    requires KeyedByName(m)
    ensures Enumerates(out, m)
  {
    out := [];
    var pending := m.Keys;
    while pending != {}
      invariant pending <= m.Keys
      invariant forall i :: 0 <= i < |out| ==> out[i].name in m.Keys - pending && m[out[i].name] == out[i]
      invariant forall k :: k in m.Keys - pending ==> exists i :: 0 <= i < |out| && out[i].name == k
      invariant forall i, j :: 0 <= i < j < |out| ==> out[i].name != out[j].name
      decreases |pending|
    {
      var k :| k in pending;
      ghost var prev, done := out, m.Keys - pending;
      out := out + [m[k]];
      pending := pending - {k};
      forall k' | k' in m.Keys - pending ensures exists i :: 0 <= i < |out| && out[i].name == k' {
        if k' == k {
          assert out[|out| - 1].name == k;
        } else {
          assert k' in done;
          var i :| 0 <= i < |prev| && prev[i].name == k';
          assert out[i] == prev[i];
        }
      }
    }
    assert m.Keys - pending == m.Keys;
  }
}
