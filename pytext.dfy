/** The parts of Python's (and JavaScript's) string semantics the core relies
    on: case mapping, the whitespace and word-character classes of `re`,
    `strip`, `split`, `" ".join`, `replace` and the `\s+` collapse.

    Character classes and case maps are exact for Latin-1 (U+0000..U+00FF)
    and for the Unicode white-space characters; beyond Latin-1 case mapping
    is the identity and every non-space character other than a combining
    diacritical mark (U+0300..U+036F) counts as a word character. */
module PyText {

  // ---------------------------------------------------------------- classes

  predicate IsAsciiDigit(c: char) { '0' <= c <= '9' }

  predicate IsAsciiLower(c: char) { 'a' <= c <= 'z' }

  predicate IsAsciiUpper(c: char) { 'A' <= c <= 'Z' }

  /** `str.isspace()` (and the `\s` class of `re` on str patterns). */
  predicate IsSpace(c: char) {
    var n := c as int;
    (9 <= n <= 13) || (28 <= n <= 32) || n == 0x85 || n == 0xA0 || n == 0x1680
    || (0x2000 <= n <= 0x200A) || n == 0x2028 || n == 0x2029 || n == 0x202F
    || n == 0x205F || n == 0x3000
  }

  /** A combining diacritical mark (canonical combining class above 0). */
  predicate IsCombining(c: char) { 0x300 <= c as int <= 0x36F }

  /** The `\w` class of `re` on str patterns: alphanumerics and '_'.
      Latin-1 is classified exactly. Above it, the punctuation, currency,
      arrow, mathematical, technical and box-drawing blocks
      (U+2000–U+206F, U+20A0–U+20CF, U+2190–U+23FF, U+2500–U+27BF) are not
      word characters, nor are white space and combining marks; everything
      else counts as a letter. */
  predicate IsWordChar(c: char) {
    var n := c as int;
    if n < 0x80 then IsAsciiDigit(c) || IsAsciiLower(c) || IsAsciiUpper(c) || c == '_'
    else if n <= 0xFF then
      n == 0xAA || n == 0xB2 || n == 0xB3 || n == 0xB5 || n == 0xB9 || n == 0xBA
      || (0xBC <= n <= 0xBE) || (0xC0 <= n <= 0xD6) || (0xD8 <= n <= 0xF6) || (0xF8 <= n)
    else
      !IsSpace(c) && !IsCombining(c)
      && !(0x2000 <= n <= 0x206F) && !(0x20A0 <= n <= 0x20CF)
      && !(0x2190 <= n <= 0x23FF) && !(0x2500 <= n <= 0x27BF)
  }

  // ----------------------------------------------------------- case mapping

  /** `str.lower()` on one character. */
  function LowerChar(c: char): char {
    var n := c as int;
    if (0x41 <= n <= 0x5A) || (0xC0 <= n <= 0xD6) || (0xD8 <= n <= 0xDE)
    then (n + 32) as char else c
  }

  function Lower(s: string): (r: string)
    ensures |r| == |s|
    ensures forall i :: 0 <= i < |s| ==> r[i] == LowerChar(s[i])
  {
    if s == [] then [] else [LowerChar(s[0])] + Lower(s[1..])
  }

  /** `str.upper()` / `String.prototype.toUpperCase()` on one character:
      'ß' becomes "SS", 'ÿ' becomes U+0178, 'µ' becomes U+039C. */
  function UpperChar(c: char): string {
    var n := c as int;
    if (0x61 <= n <= 0x7A) || (0xE0 <= n <= 0xF6) || (0xF8 <= n <= 0xFE) then [(n - 32) as char]
    else if n == 0xDF then "SS"
    else if n == 0xFF then [0x178 as char]
    else if n == 0xB5 then [0x39C as char]
    else [c]
  }

  function Upper(s: string): string {
    if s == [] then [] else UpperChar(s[0]) + Upper(s[1..])
  }

  lemma {:induction false} UpperAscii(s: string)
    requires forall i :: 0 <= i < |s| ==> s[i] as int < 0x80
    ensures |Upper(s)| == |s|
    ensures forall i :: 0 <= i < |s| ==> !IsAsciiLower(Upper(s)[i])
    ensures forall i :: 0 <= i < |s| ==> Upper(s)[i] as int < 0x80
  {
    if s != [] {
      UpperAscii(s[1..]);
      assert Upper(s) == UpperChar(s[0]) + Upper(s[1..]);
    }
  }

  /** Upper-casing leaves no ASCII lower-case letter. */
  lemma {:induction false} UpperNoAsciiLower(s: string)
    ensures forall c :: c in Upper(s) ==> !IsAsciiLower(c)
  {
    if s != [] {
      UpperNoAsciiLower(s[1..]);
      assert Upper(s) == UpperChar(s[0]) + Upper(s[1..]);
    }
  }

  // -------------------------------------------------------------- stripping

  /** Drops leading white space (`lstrip()`). */
  function TrimLeft(s: string): (r: string)
    ensures |r| <= |s| && r == s[|s| - |r|..]
    ensures r != [] ==> !IsSpace(r[0])
    ensures forall i :: 0 <= i < |s| - |r| ==> IsSpace(s[i])
  {
    if s != [] && IsSpace(s[0]) then TrimLeft(s[1..]) else s
  }

  /** Drops trailing white space (`rstrip()`). */
  function TrimRight(s: string): (r: string)
    ensures |r| <= |s| && r == s[..|r|]
    ensures r != [] ==> !IsSpace(r[|r| - 1])
    ensures forall i :: |r| <= i < |s| ==> IsSpace(s[i])
  {
    if s != [] && IsSpace(s[|s| - 1]) then TrimRight(s[..|s| - 1]) else s
  }

  /** Every character of the slice `s[a..b]` occurs in `s`. */
  lemma SliceChars(s: string, a: nat, b: nat)
    requires a <= b <= |s|
    ensures forall c :: c in s[a..b] ==> c in s
  {
    forall c | c in s[a..b] ensures c in s {
      var k :| 0 <= k < b - a && s[a..b][k] == c;
      assert s[a + k] == c;
    }
  }

  /** `str.strip()`: the longest slice without white space at either end. */
  function Strip(s: string): (r: string)
    ensures r != [] ==> !IsSpace(r[0]) && !IsSpace(r[|r| - 1])
    ensures forall c :: c in r ==> c in s
    ensures r == [] <==> forall i :: 0 <= i < |s| ==> IsSpace(s[i])
    ensures (forall i :: 0 <= i < |s| ==> !IsSpace(s[i])) ==> r == s
  {
    var t := TrimLeft(s);
    var u := TrimRight(t);
    StripFacts(s, t, u);
    u
  }

  lemma StripFacts(s: string, t: string, u: string)
    requires t == TrimLeft(s) && u == TrimRight(t)
    ensures forall c :: c in u ==> c in s
    ensures u == [] <==> forall i :: 0 <= i < |s| ==> IsSpace(s[i])
    ensures (forall i :: 0 <= i < |s| ==> !IsSpace(s[i])) ==> u == s
  {
    SliceChars(s, |s| - |t|, |s|);
    SliceChars(t, 0, |u|);
    if t != [] {
      assert t[0] == s[|s| - |t|];
      assert u != [];
    }
  }

  // ------------------------------------------------------ replace and filter

  /** `s.replace(c, with)` for a one-character pattern. */
  function Replace(s: string, c: char, with: string): (r: string)
    ensures c !in with ==> c !in r
    ensures forall d :: d in r ==> d in s || d in with
  {
    if s == [] then [] else (if s[0] == c then with else [s[0]]) + Replace(s[1..], c, with)
  }

  /** `s.replace(c, "")` */
  function Remove(s: string, c: char): (r: string)
    ensures |r| <= |s|
  {
    if s == [] then [] else (if s[0] == c then [] else [s[0]]) + Remove(s[1..], c)
  }

  /** What is left are characters of `s` other than `c`. */
  lemma {:induction false} RemoveChars(s: string, c: char)
    ensures forall d :: d in Remove(s, c) ==> d in s && d != c
  {
    if s != [] {
      RemoveChars(s[1..], c);
      assert forall d :: d in s[1..] ==> d in s;
    }
  }

  /** Nothing to remove: the text stays as it is. */
  lemma {:induction false} RemoveAbsent(s: string, c: char)
    requires c !in s
    ensures Remove(s, c) == s
  {
    if s != [] {
      assert c !in s[1..] by { assert forall d :: d in s[1..] ==> d in s; }
      RemoveAbsent(s[1..], c);
      assert s == [s[0]] + s[1..];
    }
  }

  /** `replace` keeps every other character, and puts `with` wherever `c` was. */
  lemma {:induction false} ReplaceKeeps(s: string, c: char, with: string)
    ensures forall d :: d in s && d != c ==> d in Replace(s, c, with)
    ensures c in s ==> forall d :: d in with ==> d in Replace(s, c, with)
  {
    if s != [] {
      ReplaceKeeps(s[1..], c, with);
      assert forall d :: d in s ==> d == s[0] || d in s[1..];
    }
  }

  /** With a one-character replacement, `replace` works position by position. */
  lemma {:induction false} ReplacePointwise(s: string, c: char, e: char)
    ensures |Replace(s, c, [e])| == |s|
    ensures forall i :: 0 <= i < |s| ==> Replace(s, c, [e])[i] == if s[i] == c then e else s[i]
  {
    if s != [] {
      ReplacePointwise(s[1..], c, e);
      var r := Replace(s, c, [e]);
      forall i | 0 <= i < |s| ensures r[i] == if s[i] == c then e else s[i] {
        if i > 0 { assert r[i] == Replace(s[1..], c, [e])[i - 1] && s[i] == s[1..][i - 1]; }
      }
    }
  }

  /** Removing `c` keeps every other character. */
  lemma {:induction false} RemoveKeeps(s: string, c: char)
    ensures forall d :: d in s && d != c ==> d in Remove(s, c)
  {
    if s != [] {
      RemoveKeeps(s[1..], c);
      assert forall d :: d in s ==> d == s[0] || d in s[1..];
    }
  }

  /** Python's `needle in hay` for strings. */
  predicate Contains(hay: string, needle: string) {
    needle <= hay || (hay != [] && Contains(hay[1..], needle))
  }

  // ------------------------------------------------------ white-space shapes

  /** No two adjacent white-space characters. */
  predicate NoDoubleSpace(t: string) {
    forall i :: 0 <= i < |t| - 1 ==> !(IsSpace(t[i]) && IsSpace(t[i + 1]))
  }

  /** Every white-space character is a plain ' '. */
  predicate OnlyPlainSpaces(t: string) {
    forall i :: 0 <= i < |t| && IsSpace(t[i]) ==> t[i] == ' '
  }

  /** Words separated by single plain spaces, nothing at either end. */
  predicate Squashed(t: string) {
    (t != [] ==> !IsSpace(t[0]) && !IsSpace(t[|t| - 1])) && NoDoubleSpace(t) && OnlyPlainSpaces(t)
  }

  /** `re.sub(r"\s+", " ", s)` */
  function CollapseSpaces(s: string): (r: string)
    ensures (r == []) == (s == [])
    decreases |s|
  {
    if s == [] then []
    else if IsSpace(s[0]) then [' '] + CollapseSpaces(TrimLeft(s[1..]))
    else [s[0]] + CollapseSpaces(s[1..])
  }

  /** The first character survives unless it is white space, which becomes ' '. */
  lemma CollapseHead(s: string)
    ensures var r := CollapseSpaces(s);
      && (s != [] && !IsSpace(s[0]) ==> r[0] == s[0])
      && (s != [] && IsSpace(s[0]) ==> r[0] == ' ')
  {
  }

  /** The only white space left is the plain ' '. */
  lemma {:induction false} CollapsePlain(s: string)
    ensures OnlyPlainSpaces(CollapseSpaces(s))
    decreases |s|
  {
    if s != [] {
      var rest := if IsSpace(s[0]) then TrimLeft(s[1..]) else s[1..];
      CollapsePlain(rest);
      var tail := CollapseSpaces(rest);
      var r := CollapseSpaces(s);
      forall i | 0 <= i < |r| && IsSpace(r[i]) ensures r[i] == ' ' {
        if i > 0 { assert r[i] == tail[i - 1]; }
      }
    }
  }

  /** No two white-space characters are adjacent. */
  lemma {:induction false} CollapseNoDouble(s: string)
    ensures NoDoubleSpace(CollapseSpaces(s))
    decreases |s|
  {
    if s != [] {
      var rest := if IsSpace(s[0]) then TrimLeft(s[1..]) else s[1..];
      CollapseNoDouble(rest);
      CollapseHead(rest);
      var tail := CollapseSpaces(rest);
      var r := CollapseSpaces(s);
      assert IsSpace(r[0]) && tail != [] ==> !IsSpace(tail[0]);
      forall i | 0 <= i < |r| - 1 ensures !(IsSpace(r[i]) && IsSpace(r[i + 1])) {
        if i > 0 { assert r[i] == tail[i - 1] && r[i + 1] == tail[i]; }
        else { assert r[1] == tail[0]; }
      }
    }
  }

  /** Each run of white space becomes one plain ' '. */
  lemma CollapseShape(s: string)
    ensures NoDoubleSpace(CollapseSpaces(s)) && OnlyPlainSpaces(CollapseSpaces(s))
  {
    CollapseNoDouble(s);
    CollapsePlain(s);
  }

  /** A last character that is not white space stays last. */
  lemma {:induction false} CollapseLast(s: string)
    requires s != [] && !IsSpace(s[|s| - 1])
    ensures var r := CollapseSpaces(s); r != [] && r[|r| - 1] == s[|s| - 1]
    decreases |s|
  {
    if |s| > 1 {
      var rest := if IsSpace(s[0]) then TrimLeft(s[1..]) else s[1..];
      assert rest != [] && rest[|rest| - 1] == s[|s| - 1];
      CollapseLast(rest);
    }
  }

  /** Collapsing adds no character but ' '. */
  lemma {:induction false} CollapseChars(s: string)
    ensures forall c :: c in CollapseSpaces(s) ==> c == ' ' || c in s
    decreases |s|
  {
    if s != [] {
      var rest := if IsSpace(s[0]) then TrimLeft(s[1..]) else s[1..];
      CollapseChars(rest);
      if IsSpace(s[0]) { TrimLeftIn(s[1..]); }
      assert forall c :: c in s[1..] ==> c in s;
    }
  }

  /** Trimming keeps only characters of the text. */
  lemma {:induction false} TrimLeftIn(s: string)
    ensures forall c :: c in TrimLeft(s) ==> c in s
  {
    SliceChars(s, |s| - |TrimLeft(s)|, |s|);
  }

  lemma StripKeepsShape(s: string)
    requires NoDoubleSpace(s) && OnlyPlainSpaces(s)
    ensures Squashed(Strip(s))
  {
    var t := TrimLeft(s);
    var u := TrimRight(t);
    SliceShape(s, |s| - |t|, |s|);
    SliceShape(t, 0, |u|);
    assert u != [] ==> u[0] == t[0];
  }

  /** A slice of text without double or non-plain spaces has none either. */
  lemma SliceShape(s: string, a: nat, b: nat)
    requires a <= b <= |s| && NoDoubleSpace(s) && OnlyPlainSpaces(s)
    ensures NoDoubleSpace(s[a..b]) && OnlyPlainSpaces(s[a..b])
  {
    var v := s[a..b];
    forall i | 0 <= i < |v| - 1 ensures !(IsSpace(v[i]) && IsSpace(v[i + 1])) {
      assert v[i] == s[a + i] && v[i + 1] == s[a + i + 1];
    }
    forall i | 0 <= i < |v| && IsSpace(v[i]) ensures v[i] == ' ' {
      assert v[i] == s[a + i];
    }
  }

  // --------------------------------------------------------- split and join

  /** The maximal leading run of non-white-space characters. */
  function TakeWord(s: string): (w: string)
    ensures |w| <= |s| && w == s[..|w|]
    ensures s != [] && !IsSpace(s[0]) ==> w != []
    ensures forall i :: 0 <= i < |w| ==> !IsSpace(w[i])
    ensures |w| < |s| ==> IsSpace(s[|w|])
  {
    if s == [] || IsSpace(s[0]) then [] else [s[0]] + TakeWord(s[1..])
  }

  /** A token of `str.split()`: non-empty, without white space. */
  predicate IsToken(w: string) {
    w != [] && forall i :: 0 <= i < |w| ==> !IsSpace(w[i])
  }

  /** `str.split()` with no separator argument. */
  function Split(s: string): (ws: seq<string>)
    ensures forall k :: 0 <= k < |ws| ==> IsToken(ws[k])
    ensures forall k, c :: 0 <= k < |ws| && c in ws[k] ==> c in s
    decreases |s|
  {
    var t := TrimLeft(s);
    if t == [] then []
    else
      var w := TakeWord(t);
      var rest := Split(t[|w|..]);
      SplitStepChars(s, t, w);
      ConsTokens(w, rest, s);
      [w] + rest
  }

  lemma ConsTokens(w: string, rest: seq<string>, s: string)
    requires IsToken(w) && forall c :: c in w ==> c in s
    requires forall k :: 0 <= k < |rest| ==> IsToken(rest[k])
    requires forall k, c :: 0 <= k < |rest| && c in rest[k] ==> c in s
    ensures forall k :: 0 <= k < |[w] + rest| ==> IsToken(([w] + rest)[k])
    ensures forall k, c :: 0 <= k < |[w] + rest| && c in ([w] + rest)[k] ==> c in s
  {
    forall k | 0 <= k < |[w] + rest| ensures ([w] + rest)[k] == if k == 0 then w else rest[k - 1] {}
  }

  lemma SplitStepChars(s: string, t: string, w: string)
    requires t == TrimLeft(s) && w == TakeWord(t)
    ensures forall c :: c in w ==> c in s
    ensures forall c :: c in t[|w|..] ==> c in s
  {
    SliceChars(s, |s| - |t|, |s|);
    SliceChars(t, 0, |w|);
    SliceChars(t, |w|, |t|);
  }

  /** One step of `str.split()`: the first word, then the split of the rest. */
  lemma {:induction false} SplitStep(s: string)
    requires TrimLeft(s) != []
    ensures var t := TrimLeft(s); var w := TakeWord(t);
      Split(s) == [w] + Split(t[|w|..])
  {
  }

  /** The first word of `s.split()` is the leading word of `s.lstrip()`. */
  lemma {:induction false} SplitFirst(s: string, n: int)
    requires 0 <= n < |TakeWord(TrimLeft(s))|
    ensures Split(s) != [] && n < |Split(s)[0]| && Split(s)[0][n] == TrimLeft(s)[n]
  {
    var t := TrimLeft(s);
    var w := TakeWord(t);
    SplitStep(s);
    assert ([w] + Split(t[|w|..]))[0] == w;
  }

  /** The later words of `s.split()` are the words of what follows the first one. */
  lemma {:induction false} SplitLater(s: string, k: nat, j: nat)
    requires TrimLeft(s) != []
    requires var t := TrimLeft(s); var u := t[|TakeWord(t)|..];
      k < |Split(u)| && j < |Split(u)[k]|
    ensures var t := TrimLeft(s); var u := t[|TakeWord(t)|..];
      k + 1 < |Split(s)| && j < |Split(s)[k + 1]| && Split(s)[k + 1][j] == Split(u)[k][j]
  {
    var t := TrimLeft(s);
    var w := TakeWord(t);
    var rest := Split(t[|w|..]);
    SplitStep(s);
    assert ([w] + rest)[k + 1] == rest[k];
  }

  /** A non-blank character survives `lstrip()` at a known place. */
  lemma {:induction false} TrimIndex(s: string, i: int) returns (n: int)
    requires 0 <= i < |s| && !IsSpace(s[i])
    ensures 0 <= n < |TrimLeft(s)| && TrimLeft(s)[n] == s[i]
  {
    n := i - (|s| - |TrimLeft(s)|);
  }

  /** Past the first word, a character of `s.lstrip()` sits in the shorter rest. */
  lemma {:induction false} RestIndex(s: string, n: int) returns (m: int)
    requires 0 <= n < |TrimLeft(s)| && n >= |TakeWord(TrimLeft(s))|
    ensures var t := TrimLeft(s); var u := t[|TakeWord(t)|..];
      |u| < |s| && 0 <= m < |u| && u[m] == t[n]
  {
    var t := TrimLeft(s);
    var w := TakeWord(t);
    assert !IsSpace(t[0]);
    m := n - |w|;
  }

  /** Every non-blank character of `s` lies in one of the words of `s.split()`. */
  lemma {:induction false} SplitWordOf(s: string, i: int) returns (k: nat, j: nat)
    requires 0 <= i < |s| && !IsSpace(s[i])
    ensures k < |Split(s)| && j < |Split(s)[k]| && Split(s)[k][j] == s[i]
    decreases |s|
  {
    var n := TrimIndex(s, i);
    if n < |TakeWord(TrimLeft(s))| {
      SplitFirst(s, n);
      k, j := 0, n;
    } else {
      var m := RestIndex(s, n);
      var k', j' := SplitWordOf(TrimLeft(s)[|TakeWord(TrimLeft(s))|..], m);
      SplitLater(s, k', j');
      k, j := k' + 1, j';
    }
  }

  /** `" ".join(ws)` */
  function JoinSpace(ws: seq<string>): string {
    if ws == [] then "" else if |ws| == 1 then ws[0] else ws[0] + " " + JoinSpace(ws[1..])
  }

  lemma {:induction false} JoinTokensSquashed(ws: seq<string>)
    requires forall k :: 0 <= k < |ws| ==> IsToken(ws[k])
    ensures Squashed(JoinSpace(ws))
    ensures JoinSpace(ws) == [] <==> ws == []
    ensures forall c :: c in JoinSpace(ws) ==> c == ' ' || exists k :: 0 <= k < |ws| && c in ws[k]
  {
    if |ws| > 1 {
      JoinTokensSquashed(ws[1..]);
      var tail := JoinSpace(ws[1..]);
      var r := ws[0] + " " + tail;
      assert r == JoinSpace(ws);
      assert IsToken(ws[0]);
      forall i | 0 <= i < |r| - 1 ensures !(IsSpace(r[i]) && IsSpace(r[i + 1])) {
        if i < |ws[0]| - 1 {
        } else if i == |ws[0]| - 1 {
          assert r[i] == ws[0][i];
        } else if i == |ws[0]| {
          assert r[i + 1] == tail[0];
        } else {
          assert r[i] == tail[i - |ws[0]| - 1] && r[i + 1] == tail[i - |ws[0]|];
        }
      }
      forall i | 0 <= i < |r| && IsSpace(r[i]) ensures r[i] == ' ' {
        if i > |ws[0]| { assert r[i] == tail[i - |ws[0]| - 1]; }
      }
      assert r[|r| - 1] == tail[|tail| - 1];
      forall c | c in r ensures c == ' ' || exists k :: 0 <= k < |ws| && c in ws[k] {
        if c in ws[0] {
        } else if c in tail && c != ' ' {
          var k :| 0 <= k < |ws[1..]| && c in ws[1..][k];
          assert c in ws[k + 1];
        }
      }
    } else if |ws| == 1 {
      assert JoinSpace(ws) == ws[0];
    }
  }

  /** A single word is its own squash. */
  lemma SquashToken(w: string)
    requires IsToken(w)
    ensures Squash(w) == w
  {
    assert TrimLeft(w) == w;
    assert TakeWord(w) == w;
    assert w[|w|..] == [];
    assert Split(w) == [w];
  }

  /** `" ".join(s.split())`: runs of white space become one ' ', ends trimmed. */
  function Squash(s: string): (r: string)
    ensures Squashed(r)
    ensures forall c :: c in r ==> c == ' ' || c in s
    ensures r == [] <==> forall i :: 0 <= i < |s| ==> IsSpace(s[i])
  {
    var ws := Split(s);
    JoinTokensSquashed(ws);
    SplitEmpty(s);
    JoinSpace(ws)
  }

  lemma {:induction false} SplitEmpty(s: string)
    ensures Split(s) == [] <==> forall i :: 0 <= i < |s| ==> IsSpace(s[i])
  {
    var t := TrimLeft(s);
    if t != [] {
      assert !IsSpace(s[|s| - |t|]);
    }
  }

  /** Every character of every word is in the joined text. */
  lemma {:induction false} JoinSpaceHas(ws: seq<string>, k: nat, c: char)
    requires k < |ws| && c in ws[k]
    ensures c in JoinSpace(ws)
  {
    if |ws| > 1 {
      if k == 0 {
        assert JoinSpace(ws) == ws[0] + (" " + JoinSpace(ws[1..]));
      } else {
        JoinSpaceHas(ws[1..], k - 1, c);
        assert JoinSpace(ws) == (ws[0] + " ") + JoinSpace(ws[1..]);
      }
    }
  }

  /** Squashing loses only white space: every other character survives. */
  lemma {:induction false} SquashKeeps(s: string)
    ensures forall c :: c in s && !IsSpace(c) ==> c in Squash(s)
  {
    forall c | c in s && !IsSpace(c) ensures c in Squash(s) {
      var i :| 0 <= i < |s| && s[i] == c;
      var k, j := SplitWordOf(s, i);
      JoinSpaceHas(Split(s), k, c);
    }
  }

  // ------------------------------------------------- upper-casing and strip

  /** Upper-casing maps white space to itself and nothing else to white
      space, so it keeps a stripped text stripped. */
  lemma UpperCharSpace(c: char)
    ensures IsSpace(c) ==> UpperChar(c) == [c]
    ensures !IsSpace(c) ==> UpperChar(c) != [] && forall i :: 0 <= i < |UpperChar(c)| ==> !IsSpace(UpperChar(c)[i])
  {
  }

  lemma {:induction false} UpperEnds(t: string)
    requires t != [] ==> !IsSpace(t[0]) && !IsSpace(t[|t| - 1])
    ensures var u := Upper(t); u != [] ==> !IsSpace(u[0]) && !IsSpace(u[|u| - 1])
  {
    if t != [] {
      UpperCharSpace(t[0]);
      UpperLast(t);
    }
  }

  /** `s.strip().upper()`: no white space at either end and no ASCII
      lower-case letter. */
  function UpperStrip(s: string): (r: string)
    ensures r != [] ==> !IsSpace(r[0]) && !IsSpace(r[|r| - 1])
    ensures forall c :: c in r ==> !IsAsciiLower(c)
  {
    var t := Strip(s);
    UpperEnds(t);
    UpperNoAsciiLower(t);
    Upper(t)
  }

  /** The upper-cased text ends with the upper-cased last character. */
  lemma {:induction false} UpperLast(t: string)
    requires t != [] && !IsSpace(t[|t| - 1])
    ensures var u := Upper(t); u != [] && !IsSpace(u[|u| - 1])
  {
    UpperCharSpace(t[0]);
    if |t| > 1 {
      UpperLast(t[1..]);
    }
  }

  /** Upper-casing twice is upper-casing once. */
  lemma {:induction false} UpperIdempotent(s: string)
    ensures Upper(Upper(s)) == Upper(s)
  {
    if s != [] {
      UpperIdempotent(s[1..]);
      UpperConcat(UpperChar(s[0]), Upper(s[1..]));
      var u := UpperChar(s[0]);
      assert Upper(u) == u by {
        if |u| == 2 {
          assert u[1..][1..] == [];
        }
      }
    }
  }

  lemma {:induction false} UpperConcat(a: string, b: string)
    ensures Upper(a + b) == Upper(a) + Upper(b)
  {
    if a != [] {
      assert (a + b)[1..] == a[1..] + b;
      UpperConcat(a[1..], b);
    } else {
      assert a + b == b;
    }
  }

  /** Text without white space at either end strips to itself. */
  lemma StripStripped(r: string)
    requires r != [] ==> !IsSpace(r[0]) && !IsSpace(r[|r| - 1])
    ensures Strip(r) == r
  {
    if r != [] {
      assert TrimLeft(r) == r;
      assert TrimRight(r) == r;
    }
  }
}
