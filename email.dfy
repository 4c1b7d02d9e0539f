/**
 * The e-mail check of the contact form: `isValidEmail` tests its argument
 * against the regular expression `^[^\s@]+@[^\s@]+\.[^\s@]+$`.
 *
 * `MatchesPattern` is that expression written as a definition: the string is
 * A + "@" + B + "." + C for three non-empty runs of characters that are neither
 * white space nor '@'. `IsValidEmail` is the executable test, a left-to-right
 * scan, and its contract says it accepts exactly the strings the expression
 * matches. `ShapeOf` restates the language in simpler words: no white space,
 * exactly one '@', a non-empty local part, and a '.' strictly inside the domain.
 */
module Email {

  /** The class `\s` of ECMAScript regular expressions: the WhiteSpace and
      LineTerminator code points of ECMA-262 (sections 12.2 and 12.3), which
      include every code point of the Unicode category Zs. */
  predicate IsWhitespace(c: char) {
    || c == '\t'          // U+0009 CHARACTER TABULATION
    || c == '\n'          // U+000A LINE FEED
    || c == '\U{000B}'    // LINE TABULATION
    || c == '\U{000C}'    // FORM FEED
    || c == '\r'          // U+000D CARRIAGE RETURN
    || c == ' '           // U+0020 SPACE
    || c == '\U{00A0}'    // NO-BREAK SPACE
    || c == '\U{1680}'    // OGHAM SPACE MARK
    || ('\U{2000}' <= c <= '\U{200A}')  // EN QUAD .. HAIR SPACE
    || c == '\U{2028}'    // LINE SEPARATOR
    || c == '\U{2029}'    // PARAGRAPH SEPARATOR
    || c == '\U{202F}'    // NARROW NO-BREAK SPACE
    || c == '\U{205F}'    // MEDIUM MATHEMATICAL SPACE
    || c == '\U{3000}'    // IDEOGRAPHIC SPACE
    || c == '\U{FEFF}'    // ZERO WIDTH NO-BREAK SPACE
  }

  /** One character of the class `[^\s@]`. */
  predicate IsPartChar(c: char) {
    !IsWhitespace(c) && c != '@'
  }

  /** A run `[^\s@]+`: non-empty, every character in the class. */
  predicate IsPart(s: string) {
    |s| > 0 && forall k :: 0 <= k < |s| ==> IsPartChar(s[k])
  }

  function Compose(local: string, host: string, tld: string): string {
    local + "@" + host + "." + tld
  }

  /** The regular expression, anchored at both ends. */
  ghost predicate MatchesPattern(s: string) {
    exists a, b, c {:trigger Compose(a, b, c)} ::
      IsPart(a) && IsPart(b) && IsPart(c) && s == Compose(a, b, c)
  }

  predicate NoWhitespace(s: string) {
    forall k :: 0 <= k < |s| ==> !IsWhitespace(s[k])
  }

  predicate NoAt(s: string) {
    forall k :: 0 <= k < |s| ==> s[k] != '@'
  }

  /** `d` holds a '.' that is neither its first nor its last character. */
  predicate HasInnerDot(d: string) {
    exists j :: 0 < j < |d| - 1 && d[j] == '.'
  }

  /** The simple description of the accepted strings. */
  ghost predicate SimpleShape(s: string) {
    NoWhitespace(s) && exists i :: SoleAtSplit(s, i)
  }

  /** Position `i` holds the only '@' of `s`, the local part before it is
      non-empty, and the domain after it has an inner '.'. */
  predicate SoleAtSplit(s: string, i: int) {
    && 0 < i < |s| && s[i] == '@'
    && (forall j :: 0 <= j < |s| && j != i ==> s[j] != '@')
    && HasInnerDot(s[i + 1..])
  }

  /** Position of the first '@' of `s`, or |s| when there is none. */
  function FirstAt(s: string): (i: nat)
    ensures i <= |s|
    ensures i < |s| ==> s[i] == '@'
    ensures forall j :: 0 <= j < i ==> s[j] != '@'
  {
    if |s| == 0 then 0
    else if s[0] == '@' then 0
    else 1 + FirstAt(s[1..])
  }

  /** `isValidEmail`: find the first '@', then check that it is not the first
      character, that no other '@' and no white space occur, and that the rest
      holds an inner '.'. */
  function IsValidEmail(s: string): (ok: bool)
    ensures ok <==> MatchesPattern(s)
  {
    var i := FirstAt(s);
    var ok := NoWhitespace(s) && 0 < i < |s| && NoAt(s[i + 1..]) && HasInnerDot(s[i + 1..]);
    ShapeOf(s);
    assert ok <==> SimpleShape(s) by {
      if SimpleShape(s) {
        var i' :| SoleAtSplit(s, i');
        assert i == i';
        var d := s[i + 1..];
        assert NoAt(d) by {
          forall k | 0 <= k < |d| ensures d[k] != '@' {
            assert d[k] == s[i + 1 + k];
          }
        }
      }
      if ok {
        forall j | 0 <= j < |s| && j != i ensures s[j] != '@' {
          if j > i { assert s[j] == s[i + 1..][j - i - 1]; }
        }
        assert SoleAtSplit(s, i);
      }
    }
    ok
  }

  /** The regular expression matches exactly the strings of the simple shape. */
  lemma ShapeOf(s: string)
    ensures MatchesPattern(s) <==> SimpleShape(s)
  {
    if MatchesPattern(s) {
      var a, b, c :| IsPart(a) && IsPart(b) && IsPart(c) && s == Compose(a, b, c);
      PatternShape(a, b, c);
    }
    if SimpleShape(s) {
      ShapePattern(s);
    }
  }

  lemma PatternShape(a: string, b: string, c: string)
    requires IsPart(a) && IsPart(b) && IsPart(c)
    ensures SimpleShape(Compose(a, b, c))
  {
    var s := Compose(a, b, c);
    var i := |a|;
    var d := b + "." + c;
    assert s == a + "@" + d;
    assert s[i] == '@';
    assert s[i + 1..] == d;
    assert d[|b|] == '.';
    assert HasInnerDot(s[i + 1..]);
    assert SoleAtSplit(s, i);
    forall j | 0 <= j < |s| ensures !IsWhitespace(s[j]) && (j != i ==> s[j] != '@') {
      if j < i {
        assert s[j] == a[j];
      } else if i < j < i + 1 + |b| {
        assert s[j] == b[j - i - 1];
      } else if i + 1 + |b| < j {
        assert s[j] == c[j - i - 2 - |b|];
      }
    }
  }

  lemma ShapePattern(s: string)
    requires SimpleShape(s)
    ensures MatchesPattern(s)
  {
    var i :| SoleAtSplit(s, i);
    var d := s[i + 1..];
    var j :| 0 < j < |d| - 1 && d[j] == '.';
    var a, b, c := s[..i], s[i + 1..i + 1 + j], s[i + 2 + j..];
    SliceIsPart(s, i, 0, i);
    SliceIsPart(s, i, i + 1, i + 1 + j);
    SliceIsPart(s, i, i + 2 + j, |s|);
    assert s[i + 1 + j] == '.' by { assert d[j] == s[i + 1 + j]; }
    ComposeSlices(s, i, i + 1 + j);
  }

  lemma ComposeSlices(s: string, i: int, k: int)
    requires 0 < i < k < |s| - 1 && s[i] == '@' && s[k] == '.'
    ensures s == Compose(s[..i], s[i + 1..k], s[k + 1..])
  {
    assert s == s[..i] + [s[i]] + s[i + 1..k] + [s[k]] + s[k + 1..];
  }

  /** A non-empty slice of a white-space-free string that avoids the one '@'
      at position `at` is a run `[^\s@]+`. */
  lemma SliceIsPart(s: string, at: int, lo: int, hi: int)
    requires NoWhitespace(s)
    requires forall j :: 0 <= j < |s| && j != at ==> s[j] != '@'
    requires 0 <= lo < hi <= |s| && !(lo <= at < hi)
    ensures IsPart(s[lo..hi])
  {
    var p := s[lo..hi];
    forall k | 0 <= k < |p| ensures IsPartChar(p[k]) {
      assert p[k] == s[lo + k];
    }
  }

  /** "a@b.c" is accepted. */
  lemma AcceptsShortest()
    ensures IsValidEmail("a@b.c")
  {
    assert Compose("a", "b", "c") == "a@b.c";
  }

  /** "a@b" is rejected: its domain has no '.'. */
  lemma RejectsDotless()
    ensures !IsValidEmail("a@b")
  {
  }
}
