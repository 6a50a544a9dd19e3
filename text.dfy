/** The pieces of Python's `str` behaviour the manager's normalisers rely
    on: `strip()`, `startswith`, `split` on a character (or a regex
    character class), `replace('\r\n', '\n')` and `lower()`. */
module Text {

  /** The characters Python's `str.isspace()` accepts, which are the ones
      `str.strip()` removes and the regular expression `\s` matches. */
  predicate IsSpace(c: char) {
    || c == ' '
    || ('\t' <= c <= '\r')
    || ('\U{1C}' <= c <= '\U{1F}')
    || c == '\U{85}' || c == '\U{A0}' || c == '\U{1680}'
    || ('\U{2000}' <= c <= '\U{200A}')
    || c == '\U{2028}' || c == '\U{2029}' || c == '\U{202F}' || c == '\U{205F}' || c == '\U{3000}'
  }

  /** No whitespace at either end. */
  predicate Stripped(s: string) {
    s == [] || (!IsSpace(s[0]) && !IsSpace(s[|s| - 1]))
  }

  /** Removes leading whitespace: the result is a suffix of `s`, and what was
      cut off is all whitespace. */
  function TrimLeft(s: string): (r: string)
    ensures |r| <= |s| && r == s[|s| - |r|..]
    ensures forall i :: 0 <= i < |s| - |r| ==> IsSpace(s[i])
    ensures r != [] ==> !IsSpace(r[0])
  {
    if s != [] && IsSpace(s[0]) then TrimLeft(s[1..]) else s
  }

  /** Removes trailing whitespace: the result is a prefix of `s`, and what
      was cut off is all whitespace. */
  function TrimRight(s: string): (r: string)
    ensures |r| <= |s| && r == s[..|r|]
    ensures forall i :: |r| <= i < |s| ==> IsSpace(s[i])
    ensures r != [] ==> !IsSpace(r[|r| - 1])
  {
    if s != [] && IsSpace(s[|s| - 1]) then TrimRight(s[..|s| - 1]) else s
  }

  /** Python's `s.strip()`. */
  function Strip(s: string): (r: string)
    ensures Stripped(r)
    ensures |r| <= |s|
    ensures Stripped(s) ==> r == s
    ensures forall c :: c in r ==> c in s
  {
    TrimBothEnds(s);
    TrimBothChars(s);
    TrimRight(TrimLeft(s))
  }

  /** Trimming both sides leaves whitespace at neither end. */
  lemma TrimBothEnds(s: string)
    ensures Stripped(TrimRight(TrimLeft(s)))
  {
    var t := TrimLeft(s);
    var r := TrimRight(t);
    assert r != [] ==> r[0] == t[0];
  }

  /** Trimming both sides keeps only characters of `s`. */
  lemma TrimBothChars(s: string)
    ensures forall c :: c in TrimRight(TrimLeft(s)) ==> c in s
  {
    var t := TrimLeft(s);
    SliceChars(s, |s| - |t|, |s|);
    SliceChars(t, 0, |TrimRight(t)|);
  }

  /** A slice holds only characters of the whole. */
  lemma SliceChars(s: string, i: nat, j: nat)
    requires i <= j <= |s|
    ensures forall c :: c in s[i..j] ==> c in s
  {
    forall c | c in s[i..j] ensures c in s {
      var k :| 0 <= k < j - i && s[i..j][k] == c;
      assert s[i + k] == c;
    }
  }

  /** `Strip(s)` is the slice of `s` left after cutting whitespace off both
      ends; `k` is where it starts. */
  lemma StripIsSlice(s: string) returns (k: nat)
    ensures k + |Strip(s)| <= |s| && Strip(s) == s[k..k + |Strip(s)|]
    ensures forall i :: 0 <= i < k ==> IsSpace(s[i])
    ensures forall i :: k + |Strip(s)| <= i < |s| ==> IsSpace(s[i])
  {
    var t := TrimLeft(s);
    k := |s| - |t|;
  }

  /** `s` is the whitespace cut off its front, `Strip(s)`, and the
      whitespace cut off its end. */
  lemma StripSplits(s: string) returns (k: nat)
    ensures k + |Strip(s)| <= |s| && s == s[..k] + Strip(s) + s[k + |Strip(s)|..]
    ensures forall i :: 0 <= i < k ==> IsSpace(s[i])
    ensures forall i :: k + |Strip(s)| <= i < |s| ==> IsSpace(s[i])
  {
    k := StripIsSlice(s);
    ThreeSlices(s, k, |Strip(s)|);
  }

  /** A text is its prefix, a middle slice and the rest. */
  lemma ThreeSlices(s: string, k: nat, n: nat)
    requires k + n <= |s|
    ensures s == s[..k] + s[k..k + n] + s[k + n..]
  {
  }

  /** Python's `s.startswith(p)`. */
  predicate StartsWith(s: string, p: string) {
    |p| <= |s| && s[..|p|] == p
  }

  /** Python's `s.endswith(p)`. */
  predicate EndsWith(s: string, p: string) {
    |p| <= |s| && s[|s| - |p|..] == p
  }

  /** No character of `w` is one of `seps`. */
  predicate FreeOf(w: string, seps: set<char>) {
    forall c :: c in w ==> c !in seps
  }

  /** The separator characters of `s`, in order. */
  function SepsOf(s: string, seps: set<char>): (r: string)
    ensures forall c :: c in r ==> c in seps
  {
    if s == [] then [] else (if s[0] in seps then [s[0]] else []) + SepsOf(s[1..], seps)
  }

  /** Python's `re.split('[' + seps + ']', s)`, and `s.split(c)` when `seps`
      is `{c}`: the maximal runs between separator characters, empty runs
      included, so one more piece than there are separators. */
  function Split(s: string, seps: set<char>): (r: seq<string>)
    ensures |r| == |SepsOf(s, seps)| + 1
    ensures forall i :: 0 <= i < |r| ==> FreeOf(r[i], seps)
    decreases |s|
  {
    if s == [] then [[]]
    else
      var rest := Split(s[1..], seps);
      if s[0] in seps then [[]] + rest
      else [[s[0]] + rest[0]] + rest[1..]
  }

  /** The pieces `ws` with the characters `cs` between them: `ws[0]`,
      `cs[0]`, `ws[1]`, and so on. */
  function Interleave(ws: seq<string>, cs: string): string
    requires |ws| == |cs| + 1
  {
    if cs == [] then ws[0] else ws[0] + [cs[0]] + Interleave(ws[1..], cs[1..])
  }

  /** Putting the separators of `s` back between the pieces of its split, in
      order, gives back `s`: no character is lost or invented by `Split`. */
  lemma {:induction false} SplitRoundTrip(s: string, seps: set<char>)
    ensures Interleave(Split(s, seps), SepsOf(s, seps)) == s
    decreases |s|
  {
    if s != [] {
      var rest := Split(s[1..], seps);
      var cs := SepsOf(s[1..], seps);
      SplitRoundTrip(s[1..], seps);
      if s[0] !in seps {
        assert SepsOf(s, seps) == cs;
        InterleaveGlue([s[0]], rest, cs);
      } else {
        assert SepsOf(s, seps) == [s[0]] + cs;
        InterleaveSep(s[0], rest, cs);
      }
      assert s == [s[0]] + s[1..];
    }
  }

  /** Text glued to the front of the first piece comes out at the front. */
  lemma InterleaveGlue(x: string, ws: seq<string>, cs: string)
    requires |ws| == |cs| + 1
    ensures Interleave([x + ws[0]] + ws[1..], cs) == x + Interleave(ws, cs)
  {
    var v := [x + ws[0]] + ws[1..];
    if cs != [] {
      assert v[1..] == ws[1..];
      assert (x + ws[0]) + [cs[0]] + Interleave(ws[1..], cs[1..]) == x + (ws[0] + [cs[0]] + Interleave(ws[1..], cs[1..]));
    }
  }

  /** An empty first piece before a separator leaves the separator first. */
  lemma InterleaveSep(c: char, ws: seq<string>, cs: string)
    requires |ws| == |cs| + 1
    ensures Interleave([[]] + ws, [c] + cs) == [c] + Interleave(ws, cs)
  {
    assert ([[]] + ws)[1..] == ws && ([c] + cs)[1..] == cs;
  }

  /** The characters of `s` other than `c`, in order. */
  function Without(s: string, c: char): string {
    if s == [] then [] else (if s[0] == c then [] else [s[0]]) + Without(s[1..], c)
  }

  /** Python's `s.replace('\r\n', '\n')`: a left-to-right scan that replaces
      non-overlapping occurrences. It only ever deletes carriage returns. */
  function ReplaceCrlf(s: string): (r: string)
    ensures |r| <= |s|
    ensures Without(r, '\r') == Without(s, '\r')
  {
    if |s| >= 2 && s[0] == '\r' && s[1] == '\n' then
      var t := ReplaceCrlf(s[2..]);
      assert s[1..][1..] == s[2..];
      ['\n'] + t
    else if s == [] then []
    else [s[0]] + ReplaceCrlf(s[1..])
  }

  /** Whether the character at `i` is a carriage return directly followed by
      a line feed. */
  predicate CrBeforeLf(s: string, i: nat) {
    i + 1 < |s| && s[i] == '\r' && s[i + 1] == '\n'
  }

  /** `s` with exactly the carriage returns that directly precede a line
      feed deleted, decided character by character. */
  function DropCrBeforeLf(s: string): string {
    if s == [] then [] else (if CrBeforeLf(s, 0) then [] else [s[0]]) + DropCrBeforeLf(s[1..])
  }

  /** `replace('\r\n', '\n')` deletes exactly the carriage returns directly
      followed by a line feed and keeps every other character, in order. */
  lemma {:induction false} ReplaceCrlfDropsCrBeforeLf(s: string)
    ensures ReplaceCrlf(s) == DropCrBeforeLf(s)
    decreases |s|
  {
    if s != [] {
      if CrBeforeLf(s, 0) {
        assert s[1..][1..] == s[2..];
        ReplaceCrlfDropsCrBeforeLf(s[2..]);
        assert !CrBeforeLf(s[1..], 0);
      } else {
        ReplaceCrlfDropsCrBeforeLf(s[1..]);
      }
    }
  }

  /** Python's `c.lower()` on ASCII letters; other characters are kept. */
  function LowerAscii(c: char): (r: char)
    ensures 'A' <= c <= 'Z' ==> 'a' <= r <= 'z' && r as int - 'a' as int == c as int - 'A' as int
    ensures !('A' <= c <= 'Z') ==> r == c
  {
    if 'A' <= c <= 'Z' then (c as int + 32) as char else c
  }

  /** Python's `s.lower()` on ASCII letters: character by character. */
  function Lower(s: string): (r: string)
    ensures |r| == |s| && forall i :: 0 <= i < |s| ==> r[i] == LowerAscii(s[i])
  {
    seq(|s|, i requires 0 <= i < |s| => LowerAscii(s[i]))
  }
}
