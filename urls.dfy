/** The manager's text normalisers: `ensure_url` (defined identically in
    manager/actions.py and manager/routes.py), the application slug, and
    the two ways redirect URIs are read from a form field. */
module Urls {
  import opened Basics
  import opened Text

  predicate HasScheme(u: string) {
    StartsWith(u, "http://") || StartsWith(u, "https://")
  }

  /** `ensure_url`: empty or missing input gives the empty string; anything
      else is stripped and gets `https://` in front unless it already names
      the http or https scheme. */
  function EnsureUrl(url: Option<string>): (r: string)
    ensures r == [] <==> url.None? || url.value == []
    ensures r != [] ==> HasScheme(r) && Stripped(r)
    ensures url.Some? && url.value != [] ==> EndsWith(r, Strip(url.value))
    ensures url.Some? && HasScheme(Strip(url.value)) ==> r == Strip(url.value)
    ensures url.Some? && url.value != [] && !HasScheme(Strip(url.value)) ==> r == "https://" + Strip(url.value)
  {
    if url.None? || url.value == [] then ""
    else
      var u := Strip(url.value);
      if HasScheme(u) then u
      else
        var r := "https://" + u;
        assert r[..8] == "https://";
        assert r[|r| - |u|..] == u;
        assert u != [] ==> r[|r| - 1] == u[|u| - 1];
        r
  }

  /** Normalising an already normalised URL changes nothing. */
  lemma EnsureUrlIdempotent(url: Option<string>)
    ensures EnsureUrl(Some(EnsureUrl(url))) == EnsureUrl(url)
  {
    var r := EnsureUrl(url);
    if r != [] {
      assert Strip(r) == r;
    }
  }

  /** `EnsureUrl` adds no line break to a single line. */
  lemma EnsureUrlOneLine(line: string)
    requires '\n' !in line
    ensures '\n' !in EnsureUrl(Some(line))
  {
    if line != [] {
      var u := Strip(line);
      assert '\n' !in u;
      if !HasScheme(u) {
        assert '\n' !in "https://";
        assert EnsureUrl(Some(line)) == "https://" + u;
      }
    }
  }

  // ---- application slug (manager/actions.py, create_oidc_app_action) ----

  predicate IsSlugAlnum(c: char) {
    'a' <= c <= 'z' || '0' <= c <= '9'
  }

  /** A well-formed slug: lower-case letters, digits and dashes, with no
      dash at either end and no two dashes in a row. */
  predicate IsSlug(s: string) {
    && (forall i :: 0 <= i < |s| ==> IsSlugAlnum(s[i]) || s[i] == '-')
    && (s != [] ==> s[0] != '-' && s[|s| - 1] != '-')
    && (forall i :: 0 <= i < |s| - 1 ==> !(s[i] == '-' && s[i + 1] == '-'))
  }

  /** Only lower-case letters, digits and blanks. */
  predicate BlanksAndAlnum(s: string) {
    forall i :: 0 <= i < |s| ==> IsSlugAlnum(s[i]) || s[i] == ' '
  }

  /** `re.sub(r'[^a-z0-9]', ' ', name.lower())`. */
  function Blank(name: string): (r: string)
    ensures |r| == |name|
    ensures BlanksAndAlnum(r)
    ensures forall i :: 0 <= i < |name| && IsSlugAlnum(LowerAscii(name[i])) ==> r[i] == LowerAscii(name[i])
    ensures forall i :: 0 <= i < |name| && !IsSlugAlnum(LowerAscii(name[i])) ==> r[i] == ' '
  {
    seq(|name|, i requires 0 <= i < |name| =>
      var l := LowerAscii(name[i]); if IsSlugAlnum(l) then l else ' ')
  }

  /** No two whitespace characters next to each other. */
  predicate SingleSpaced(s: string) {
    forall i :: 0 <= i < |s| - 1 ==> !(IsSpace(s[i]) && IsSpace(s[i + 1]))
  }

  /** `re.sub(r'\s+', ' ', s)`: every maximal run of whitespace becomes one
      blank; other characters are kept. */
  function CollapseSpaces(s: string): (r: string)
    ensures r == [] <==> s == []
    ensures r != [] ==> (IsSpace(s[0]) ==> r[0] == ' ') && (!IsSpace(s[0]) ==> r[0] == s[0])
    ensures SingleSpaced(r)
    decreases |s|
  {
    if s == [] then []
    else if IsSpace(s[0]) then
      var rest := CollapseSpaces(TrimLeft(s[1..]));
      SingleSpacedCons(' ', rest);
      [' '] + rest
    else
      var rest := CollapseSpaces(s[1..]);
      SingleSpacedCons(s[0], rest);
      [s[0]] + rest
  }

  /** A character before a single-spaced text keeps it single-spaced unless
      both it and the text's first character are whitespace. */
  lemma SingleSpacedCons(c: char, rest: string)
    requires SingleSpaced(rest)
    requires IsSpace(c) && rest != [] ==> !IsSpace(rest[0])
    ensures SingleSpaced([c] + rest)
  {
    var r := [c] + rest;
    assert forall i :: 1 <= i < |r| ==> r[i] == rest[i - 1];
  }

  /** The reference reading of `re.sub(r'\s+', ' ', s)`, one character at a
      time: a whitespace character becomes a blank unless it follows another
      whitespace character, in which case it is dropped; every other
      character is kept. `afterSpace` says whether the character before `s`
      was whitespace. */
  function Squeeze(s: string, afterSpace: bool): string {
    if s == [] then []
    else if IsSpace(s[0]) then (if afterSpace then [] else [' ']) + Squeeze(s[1..], true)
    else [s[0]] + Squeeze(s[1..], false)
  }

  /** After whitespace, leading whitespace is dropped. */
  lemma {:induction false} SqueezeAfterSpace(t: string)
    ensures Squeeze(t, true) == Squeeze(TrimLeft(t), false)
    decreases |t|
  {
    if t != [] && IsSpace(t[0]) {
      SqueezeAfterSpace(t[1..]);
    }
  }

  /** `CollapseSpaces` agrees with the character-by-character reading. */
  lemma {:induction false} CollapseSpacesSqueezes(s: string)
    ensures CollapseSpaces(s) == Squeeze(s, false)
    decreases |s|
  {
    if s != [] {
      if IsSpace(s[0]) {
        CollapseSpacesSqueezes(TrimLeft(s[1..]));
        SqueezeAfterSpace(s[1..]);
      } else {
        CollapseSpacesSqueezes(s[1..]);
      }
    }
  }

  /** A filter that never keeps whitespace keeps the same characters from
      the squeezed text as from the original. */
  lemma {:induction false} SqueezeKeeps(s: string, afterSpace: bool, p: char -> bool)
    requires forall c :: p(c) ==> !IsSpace(c)
    ensures Keep(Squeeze(s, afterSpace), p) == Keep(s, p)
    decreases |s|
  {
    if s != [] {
      var head := if IsSpace(s[0]) then (if afterSpace then [] else [' ']) else [s[0]];
      SqueezeKeeps(s[1..], IsSpace(s[0]), p);
      KeepAppend(head, Squeeze(s[1..], IsSpace(s[0])), p);
      if head == [' '] {
        KeepCons(' ', [], p);
        assert [' '] + [] == [' '];
      } else if head != [] {
        KeepCons(s[0], [], p);
        assert [s[0]] + [] == [s[0]];
      }
    }
  }

  /** `re.sub(r'\s+', ' ', s)` keeps every character that is not
      whitespace, in order: filtering the result for any kind of
      non-whitespace character gives what filtering `s` gives. */
  lemma CollapseKeeps(s: string, p: char -> bool)
    requires forall c :: p(c) ==> !IsSpace(c)
    ensures Keep(CollapseSpaces(s), p) == Keep(s, p)
  {
    CollapseSpacesSqueezes(s);
    SqueezeKeeps(s, false, p);
  }

  /** Collapsing whitespace adds no character besides the blank. */
  lemma {:induction false} CollapseKeepsAlphabet(s: string)
    requires BlanksAndAlnum(s)
    ensures BlanksAndAlnum(CollapseSpaces(s))
    decreases |s|
  {
    if s != [] {
      if IsSpace(s[0]) {
        var t := TrimLeft(s[1..]);
        assert t == s[1..][|s| - 1 - |t|..];
        assert BlanksAndAlnum(t);
        CollapseKeepsAlphabet(t);
      } else {
        CollapseKeepsAlphabet(s[1..]);
      }
    }
  }

  /** A text whose only whitespace is single blanks is left as it is by
      `CollapseSpaces`. */
  lemma {:induction false} CollapseSingleSpaced(s: string)
    requires SingleSpaced(s)
    requires forall i :: 0 <= i < |s| && IsSpace(s[i]) ==> s[i] == ' '
    ensures CollapseSpaces(s) == s
    decreases |s|
  {
    if s != [] {
      assert SingleSpaced(s[1..]);
      if IsSpace(s[0]) {
        assert s[1..] == [] || !IsSpace(s[1..][0]);
        assert TrimLeft(s[1..]) == s[1..];
      }
      CollapseSingleSpaced(s[1..]);
      assert s == [s[0]] + s[1..];
    }
  }

  /** `s.replace(' ', '-')`. */
  function Dashes(s: string): (r: string)
    ensures |r| == |s|
    ensures forall i :: 0 <= i < |s| ==> r[i] == if s[i] == ' ' then '-' else s[i]
  {
    seq(|s|, i requires 0 <= i < |s| => if s[i] == ' ' then '-' else s[i])
  }

  /** Stripping keeps a text single spaced and adds no character. */
  lemma StripKeepsShape(s: string)
    requires SingleSpaced(s) && BlanksAndAlnum(s)
    ensures SingleSpaced(Strip(s)) && BlanksAndAlnum(Strip(s))
  {
    var k := StripIsSlice(s);
    var r := Strip(s);
    forall i | 0 <= i < |r|
      ensures r[i] == s[k + i]
    {
    }
  }

  /** Blanks that are single, inner and the only whitespace become dashes
      that form a slug. */
  lemma DashesMakeSlug(s: string)
    requires SingleSpaced(s) && BlanksAndAlnum(s) && Stripped(s)
    ensures IsSlug(Dashes(s))
  {
    var r := Dashes(s);
    forall i | 0 <= i < |s| ensures r[i] == '-' <==> s[i] == ' ' {
    }
  }

  /** The slug of an application name: lower-cased, every character outside
      `[a-z0-9]` turned into a blank, runs of blanks collapsed, the ends
      stripped, blanks turned into dashes. */
  function Slug(name: string): (r: string)
    ensures IsSlug(r)
  {
    var collapsed := CollapseSpaces(Blank(name));
    CollapseKeepsAlphabet(Blank(name));
    StripKeepsShape(collapsed);
    DashesMakeSlug(Strip(collapsed));
    Dashes(Strip(collapsed))
  }

  /** Stripping cuts off only whitespace, so a filter that never keeps
      whitespace keeps the same characters from the stripped text. */
  lemma StripKeeps(s: string, p: char -> bool)
    requires forall c :: p(c) ==> !IsSpace(c)
    ensures Keep(Strip(s), p) == Keep(s, p)
  {
    var k := StripSplits(s);
    var a, b := s[..k], s[k + |Strip(s)|..];
    forall i | 0 <= i < |a| ensures !p(a[i]) {
      assert IsSpace(s[i]);
    }
    forall i | 0 <= i < |b| ensures !p(b[i]) {
      assert IsSpace(s[k + |Strip(s)| + i]);
    }
    KeepMiddle(a, Strip(s), b, p);
  }

  /** The letters and digits of the slug are those of the lower-cased name,
      in order; the slug is these with single dashes between some of them,
      so removing its dashes leaves exactly the name's lower-cased `[a-z0-9]`
      characters. */
  lemma SlugKeepsAlnums(name: string)
    ensures Keep(Slug(name), IsSlugAlnum) == Keep(Lower(name), IsSlugAlnum)
  {
    var b := Blank(name);
    var c := CollapseSpaces(b);
    BlankKeepsAlnums(name);
    AlnumIsNotSpace();
    CollapseKeeps(b, IsSlugAlnum);
    StripKeeps(c, IsSlugAlnum);
    DashesKeepAlnums(Strip(c));
  }

  lemma AlnumIsNotSpace()
    ensures forall c :: IsSlugAlnum(c) ==> !IsSpace(c)
  {
  }

  /** Blanking keeps the letters and digits of the lower-cased name. */
  lemma BlankKeepsAlnums(name: string)
    ensures Keep(Blank(name), IsSlugAlnum) == Keep(Lower(name), IsSlugAlnum)
  {
    KeepAgree(Blank(name), Lower(name), IsSlugAlnum);
  }

  /** Turning blanks into dashes keeps the letters and digits. */
  lemma DashesKeepAlnums(s: string)
    ensures Keep(Dashes(s), IsSlugAlnum) == Keep(s, IsSlugAlnum)
  {
    KeepAgree(Dashes(s), s, IsSlugAlnum);
  }

  /** The text a slug reads as after `Blank`: its dashes become blanks. */
  lemma BlankOfSlug(s: string)
    requires IsSlug(s)
    ensures forall i :: 0 <= i < |s| ==> Blank(s)[i] == if s[i] == '-' then ' ' else s[i]
  {
    forall i | 0 <= i < |s| ensures Blank(s)[i] == if s[i] == '-' then ' ' else s[i] {
      assert IsSlugAlnum(s[i]) || s[i] == '-';
    }
  }

  /** `Blank` of a slug is single spaced, stripped, and its only whitespace
      is the blank. */
  lemma BlankOfSlugShape(s: string)
    requires IsSlug(s)
    ensures SingleSpaced(Blank(s)) && Stripped(Blank(s))
    ensures forall i :: 0 <= i < |s| && IsSpace(Blank(s)[i]) ==> Blank(s)[i] == ' '
  {
    var b := Blank(s);
    BlankOfSlug(s);
    forall i | 0 <= i < |b| ensures IsSpace(b[i]) <==> s[i] == '-' {
      assert IsSlugAlnum(s[i]) || s[i] == '-';
    }
  }

  /** Turning the blanks of `Blank(s)` back into dashes gives the slug `s`. */
  lemma DashesOfBlank(s: string)
    requires IsSlug(s)
    ensures Dashes(Blank(s)) == s
  {
    BlankOfSlug(s);
    var r := Dashes(Blank(s));
    forall i | 0 <= i < |s| ensures r[i] == s[i] {
    }
  }

  /** A slug is its own slug. */
  lemma SlugOfSlug(s: string)
    requires IsSlug(s)
    ensures Slug(s) == s
  {
    var b := Blank(s);
    BlankOfSlugShape(s);
    CollapseSingleSpaced(b);
    assert Strip(b) == b;
    DashesOfBlank(s);
  }

  /** Slugging is idempotent. */
  lemma SlugIdempotent(name: string)
    ensures Slug(Slug(name)) == Slug(name)
  {
    SlugOfSlug(Slug(name));
  }

  /** The slug, or the generated 8-character key when the name has no
      letters or digits at all. */
  function SlugOrKey(name: string, key: string): (r: string)
    requires |key| == 8
    ensures r != []
    ensures Slug(name) != [] ==> r == Slug(name)
    ensures Slug(name) == [] ==> r == key
  {
    var s := Slug(name);
    if s == [] then key else s
  }

  // ---- redirect URIs ----

  datatype MatchingMode = Strict

  /** One entry of an OAuth2 provider's `redirect_uris` list. */
  datatype RedirectUri = RedirectUri(url: string, matchingMode: MatchingMode)

  /** Stripping adds no separator. */
  lemma StripFreeOf(w: string, seps: set<char>)
    requires FreeOf(w, seps)
    ensures FreeOf(Strip(w), seps)
  {
  }

  /** Not blank. */
  predicate NonBlank(u: string) {
    u != []
  }

  /** Every piece stripped. */
  function StripAll(pieces: seq<string>): (r: seq<string>)
    ensures |r| == |pieces| && forall i :: 0 <= i < |pieces| ==> r[i] == Strip(pieces[i])
  {
    if pieces == [] then []
    else StripAll(pieces[..|pieces| - 1]) + [Strip(pieces[|pieces| - 1])]
  }

  /** Each URL as a strictly matched redirect URI. */
  function Tagged(urls: seq<string>): (r: seq<RedirectUri>)
    ensures |r| == |urls| && forall i :: 0 <= i < |urls| ==> r[i] == RedirectUri(urls[i], Strict)
  {
    seq(|urls|, i requires 0 <= i < |urls| => RedirectUri(urls[i], Strict))
  }

  /** The pieces `create_oidc_app_action` keeps, stripped, in order: blank
      ones are dropped. */
  function StrictUris(pieces: seq<string>): (r: seq<RedirectUri>)
    ensures |r| <= |pieces|
    ensures forall i :: 0 <= i < |r| ==> r[i].url != [] && Stripped(r[i].url) && r[i].matchingMode == Strict
  {
    if pieces == [] then []
    else
      var u := Strip(pieces[|pieces| - 1]);
      StrictUris(pieces[..|pieces| - 1]) + (if u == [] then [] else [RedirectUri(u, Strict)])
  }

  /** `StrictUris` is the list comprehension it stands for: the stripped
      pieces that are not blank, in order, each matched strictly. */
  lemma {:induction false} StrictUrisKeepPieces(pieces: seq<string>)
    ensures StrictUris(pieces) == Tagged(Keep(StripAll(pieces), NonBlank))
  {
    if pieces != [] {
      var front := pieces[..|pieces| - 1];
      var u := Strip(pieces[|pieces| - 1]);
      var kf, ku := Keep(StripAll(front), NonBlank), Keep([u], NonBlank);
      StrictUrisKeepPieces(front);
      assert StripAll(pieces) == StripAll(front) + [u];
      KeepAppend(StripAll(front), [u], NonBlank);
      TaggedAppend(kf, ku);
      TaggedOne(u);
      assert StrictUris(pieces) == Tagged(kf) + Tagged(ku);
    }
  }

  /** One stripped piece: its URI when it is not blank, nothing otherwise. */
  lemma TaggedOne(u: string)
    ensures Tagged(Keep([u], NonBlank)) == if u == [] then [] else [RedirectUri(u, Strict)]
  {
    KeepCons(u, [], NonBlank);
    assert [u] + [] == [u];
  }

  /** Tagging distributes over concatenation. */
  lemma TaggedAppend(a: seq<string>, b: seq<string>)
    ensures Tagged(a + b) == Tagged(a) + Tagged(b)
  {
  }

  /** The URIs kept from separator-free pieces hold no separator. */
  lemma {:induction false} StrictUrisFreeOf(pieces: seq<string>, seps: set<char>)
    requires forall j :: 0 <= j < |pieces| ==> FreeOf(pieces[j], seps)
    ensures forall i :: 0 <= i < |StrictUris(pieces)| ==> FreeOf(StrictUris(pieces)[i].url, seps)
  {
    if pieces != [] {
      var front := pieces[..|pieces| - 1];
      assert forall j :: 0 <= j < |front| ==> front[j] == pieces[j];
      StrictUrisFreeOf(front, seps);
      StripFreeOf(pieces[|pieces| - 1], seps);
    }
  }

  /** The redirect URIs `create_oidc_app_action` sends: the raw text split
      on newlines and commas, each piece stripped, blank ones dropped, each
      matched strictly. No URI is blank or contains a separator. */
  function RedirectUris(raw: Option<string>): (r: seq<RedirectUri>)
    ensures raw.None? || raw.value == [] ==> r == []
    ensures raw.Some? && raw.value != [] ==> r == Tagged(Keep(StripAll(Split(raw.value, {'\n', ','})), NonBlank))
    ensures forall i :: 0 <= i < |r| ==>
      && r[i].url != [] && Stripped(r[i].url) && r[i].matchingMode == Strict
      && '\n' !in r[i].url && ',' !in r[i].url
  {
    if raw.None? || raw.value == [] then []
    else
      var pieces := Split(raw.value, {'\n', ','});
      StrictUrisFreeOf(pieces, {'\n', ','});
      StrictUrisKeepPieces(pieces);
      StrictUris(pieces)
  }

  /** One more piece: the URIs of the pieces before it, then its own when it
      is not blank. */
  lemma StrictUrisStep(pieces: seq<string>, i: nat)
    requires i < |pieces|
    ensures StrictUris(pieces[..i + 1])
      == StrictUris(pieces[..i]) + (if Strip(pieces[i]) == [] then [] else [RedirectUri(Strip(pieces[i]), Strict)])
  {
    assert pieces[..i + 1][..i] == pieces[..i];
  }

  /** The loop step as `create_oidc_app_action` takes it. */
  lemma StrictUrisNext(pieces: seq<string>, i: nat, uris: seq<RedirectUri>, u: string)
    requires i < |pieces| && uris == StrictUris(pieces[..i]) && u == Strip(pieces[i])
    ensures u == [] ==> uris == StrictUris(pieces[..i + 1])
    ensures u != [] ==> uris + [RedirectUri(u, Strict)] == StrictUris(pieces[..i + 1])
  {
    StrictUrisStep(pieces, i);
  }

  /** `create_oidc_app_action`'s redirect list: split the raw text, then
      keep the non-blank pieces. */
  method ParseRedirectUris(raw: Option<string>) returns (uris: seq<RedirectUri>)
    ensures uris == RedirectUris(raw)
    ensures raw.None? || raw.value == [] ==> uris == []
    ensures raw.Some? && raw.value != [] ==> uris == Tagged(Keep(StripAll(Split(raw.value, {'\n', ','})), NonBlank))
  {
    uris := [];
    if raw.Some? && raw.value != [] {
      var pieces := Split(raw.value, {'\n', ','});
      uris := KeepStrict(pieces);
    }
  }

  /** The loop that builds the redirect list by appending one entry per
      non-blank piece. */
  method KeepStrict(pieces: seq<string>) returns (uris: seq<RedirectUri>)
    ensures uris == StrictUris(pieces)
    ensures uris == Tagged(Keep(StripAll(pieces), NonBlank))
  {
    uris := [];
    var i := 0;
    while i < |pieces|
      invariant 0 <= i <= |pieces|
      invariant uris == StrictUris(pieces[..i])
    {
      var u := Strip(pieces[i]);
      StrictUrisNext(pieces, i, uris, u);
      if u != [] {
        uris := uris + [RedirectUri(u, Strict)];
      }
      i := i + 1;
    }
    StrictUrisWhole(pieces);
  }

  /** The loop's last prefix is the whole list. */
  lemma StrictUrisWhole(pieces: seq<string>)
    ensures StrictUris(pieces[..|pieces|]) == StrictUris(pieces) == Tagged(Keep(StripAll(pieces), NonBlank))
  {
    assert pieces[..|pieces|] == pieces;
    StrictUrisKeepPieces(pieces);
  }

  /** A line that is not blank once stripped: `if u.strip()`. */
  predicate HasText(l: string) {
    Strip(l) != []
  }

  /** Every line through `EnsureUrl`. */
  function EnsureAll(ls: seq<string>): (r: seq<string>)
    ensures |r| == |ls| && forall i :: 0 <= i < |ls| ==> r[i] == EnsureUrl(Some(ls[i]))
  {
    seq(|ls|, i requires 0 <= i < |ls| => EnsureUrl(Some(ls[i])))
  }

  /** `EnsureAll` gives the `EnsureUrl` of each line and nothing else. */
  lemma EnsureAllMembers(ls: seq<string>)
    ensures forall l :: l in ls ==> EnsureUrl(Some(l)) in EnsureAll(ls)
    ensures forall i :: 0 <= i < |ls| ==> ls[i] in ls && EnsureAll(ls)[i] == EnsureUrl(Some(ls[i]))
  {
    forall l | l in ls ensures EnsureUrl(Some(l)) in EnsureAll(ls) {
      var i :| 0 <= i < |ls| && ls[i] == l;
      assert EnsureAll(ls)[i] == EnsureUrl(Some(l));
    }
  }

  lemma EnsureAllAppend(a: seq<string>, b: seq<string>)
    ensures EnsureAll(a + b) == EnsureAll(a) + EnsureAll(b)
  {
  }

  /** `[ensure_url(u) for u in lines if u.strip()]`: every line with text,
      through `EnsureUrl`; each entry has a scheme and no surrounding
      whitespace. */
  function UrlLines(lines: seq<string>): (r: seq<string>)
    ensures |r| == |Keep(lines, HasText)| <= |lines|
    ensures forall i :: 0 <= i < |r| ==> HasScheme(r[i]) && Stripped(r[i])
  {
    var kept := Keep(lines, HasText);
    KeepMembers(lines, HasText);
    forall i | 0 <= i < |kept| ensures kept[i] != [] {
      assert kept[i] in kept;
    }
    EnsureAll(kept)
  }

  /** Every line with text gives an entry, and every entry comes from a line
      with text. */
  lemma UrlLinesMembers(lines: seq<string>)
    ensures forall l :: l in lines && HasText(l) ==> EnsureUrl(Some(l)) in UrlLines(lines)
    ensures forall u :: u in UrlLines(lines) ==> exists l :: l in lines && HasText(l) && u == EnsureUrl(Some(l))
  {
    var kept := Keep(lines, HasText);
    KeepMembers(lines, HasText);
    EnsureAllMembers(kept);
    forall u | u in UrlLines(lines) ensures exists l :: l in lines && HasText(l) && u == EnsureUrl(Some(l)) {
      var i :| 0 <= i < |kept| && EnsureAll(kept)[i] == u;
      assert kept[i] in kept;
    }
  }

  /** Lines without a line break give entries without one. */
  lemma UrlLinesOneLine(lines: seq<string>)
    requires forall j :: 0 <= j < |lines| ==> '\n' !in lines[j]
    ensures forall i :: 0 <= i < |UrlLines(lines)| ==> '\n' !in UrlLines(lines)[i]
  {
    var kept := Keep(lines, HasText);
    KeepMembers(lines, HasText);
    forall i | 0 <= i < |kept| ensures '\n' !in EnsureAll(kept)[i] {
      assert kept[i] in kept;
      var j :| 0 <= j < |lines| && lines[j] == kept[i];
      EnsureUrlOneLine(kept[i]);
    }
  }

  /** The comprehension works line by line: the entries of an earlier block
      of lines come before those of a later one. */
  lemma UrlLinesAppend(a: seq<string>, b: seq<string>)
    ensures UrlLines(a + b) == UrlLines(a) + UrlLines(b)
  {
    KeepAppend(a, b, HasText);
    EnsureAllAppend(Keep(a, HasText), Keep(b, HasText));
  }

  /** A single line gives its `EnsureUrl` when it has text, and nothing
      otherwise. */
  lemma UrlLinesOne(l: string)
    ensures UrlLines([l]) == if HasText(l) then [EnsureUrl(Some(l))] else []
  {
    KeepCons(l, [], HasText);
    assert [l] + [] == [l];
  }

  /** `text.replace('\r\n', '\n').split('\n')`: the lines of the text,
      counting CRLF as one line break. Putting line feeds back between them
      gives the CRLF-normalised text. */
  function Lines(text: string): (r: seq<string>)
    ensures |r| == |SepsOf(ReplaceCrlf(text), {'\n'})| + 1 && forall j :: 0 <= j < |r| ==> '\n' !in r[j]
    ensures Interleave(r, SepsOf(ReplaceCrlf(text), {'\n'})) == ReplaceCrlf(text)
  {
    var r := Split(ReplaceCrlf(text), {'\n'});
    SplitRoundTrip(ReplaceCrlf(text), {'\n'});
    forall j | 0 <= j < |r| ensures '\n' !in r[j] {
      assert FreeOf(r[j], {'\n'});
    }
    r
  }

  /** The redirect list `app_edit` sends: missing or empty input means "no
      change" (None); otherwise every line of the text (CRLF counted as one
      line break) that has text goes through `EnsureUrl`, in order, and
      blank lines are dropped. Every entry then has an http(s) scheme, has
      no surrounding whitespace and holds no line break. */
  function EditRedirects(raw: Option<string>): (r: Option<seq<string>>)
    ensures r.None? <==> raw.None? || raw.value == []
    ensures r.Some? ==> r.value == UrlLines(Lines(raw.value))
    ensures r.Some? ==> forall l :: l in Lines(raw.value) && HasText(l) ==> EnsureUrl(Some(l)) in r.value
    ensures r.Some? ==> forall i :: 0 <= i < |r.value| ==>
      HasScheme(r.value[i]) && Stripped(r.value[i]) && '\n' !in r.value[i]
  {
    if raw.None? || raw.value == [] then None
    else
      UrlLinesOneLine(Lines(raw.value));
      UrlLinesMembers(Lines(raw.value));
      Some(UrlLines(Lines(raw.value)))
  }
}
