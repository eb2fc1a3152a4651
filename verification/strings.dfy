/** Small option type shared by the other modules. */
module Wrappers {
  datatype Option<+T> = None | Some(value: T)
}

/**
 * The string tests the source uses: `endsWith`, `includes`, and the
 * case-insensitive suffix test of a `/\.(a|b|...)$/i` regular expression.
 * Strings are sequences of characters (UTF-16 code units in the source).
 */
module Strings {
  import opened Wrappers

  /** `s.endsWith(suffix)`. */
  predicate EndsWith(s: string, suffix: string) {
    |suffix| <= |s| && s[|s| - |suffix|..] == suffix
  }

  /** `t` occurs in `s` starting at position `i`. */
  predicate OccursAt(s: string, t: string, i: nat) {
    i + |t| <= |s| && s[i..i + |t|] == t
  }

  /** `s.includes(t)`. */
  predicate Contains(s: string, t: string) {
    exists i: nat | i <= |s| :: OccursAt(s, t, i)
  }

  /** Lower-cases one ASCII letter and leaves every other character alone. */
  function LowerChar(c: char): (r: char)
    ensures 'A' <= c <= 'Z' ==> r as int == c as int + 32
    ensures !('A' <= c <= 'Z') ==> r == c
  {
    if 'A' <= c <= 'Z' then (c as int + 32) as char else c
  }

  /**
   * ASCII lower-casing of a whole string. For a pattern made of lower-case
   * ASCII letters, digits and '.', a JavaScript regular expression with the
   * `i` flag (and without `u`) matches a character exactly when this mapping
   * of it equals the pattern character: the flag never maps a non-ASCII
   * character onto an ASCII one.
   */
  function Lower(s: string): (r: string)
    ensures |r| == |s|
  {
    if s == [] then [] else [LowerChar(s[0])] + Lower(s[1..])
  }

  /** `s` ends, ignoring ASCII case, with `"." + ext` for one of `exts`. */
  predicate EndsWithExtension(s: string, exts: seq<string>) {
    exists i :: 0 <= i < |exts| && EndsWith(Lower(s), "." + exts[i])
  }

  /** Containment is transitive: `u` inside `t` inside `s` puts `u` inside `s`. */
  lemma ContainsTransitive(s: string, t: string, u: string)
    requires Contains(s, t) && Contains(t, u)
    ensures Contains(s, u)
  {
    var i: nat :| i <= |s| && OccursAt(s, t, i);
    var j: nat :| j <= |t| && OccursAt(t, u, j);
    forall k | j <= k < j + |u|
      ensures t[k] == s[i + k]
    {
      assert t[k] == s[i..i + |t|][k];
    }
    assert s[i + j..i + j + |u|] == t[j..j + |u|];
    assert OccursAt(s, u, i + j);
  }

  /**
   * The text after the last '.' of `s`, or None when `s` has no '.'.
   * (The part `name.split('.')` puts last, when there is a dot.)
   */
  function ExtensionOf(s: string): (r: Option<string>)
    ensures r.Some? ==> '.' !in r.value && |r.value| < |s|
  {
    if s == [] then None
    else if s[|s| - 1] == '.' then Some("")
    else match ExtensionOf(s[..|s| - 1])
      case None => None
      case Some(e) => Some(e + [s[|s| - 1]])
  }

  /** For a dot-free `e`, ending in `"." + e` is the same as having extension `e`. */
  lemma {:induction false} DottedSuffix(s: string, e: string)
    requires '.' !in e
    ensures EndsWith(s, "." + e) <==> ExtensionOf(s) == Some(e)
    decreases |s|
  {
    if s == [] {
    } else if e == [] {
      assert EndsWith(s, ".") <==> s[|s| - 1] == '.';
      if s[|s| - 1] != '.' {
        match ExtensionOf(s[..|s| - 1])
        case None =>
        case Some(x) => assert |x + [s[|s| - 1]]| > 0;
      }
    } else {
      var init, last := s[..|s| - 1], s[|s| - 1];
      var e0, c := e[..|e| - 1], e[|e| - 1];
      assert e == e0 + [c];
      assert '.' !in e0 by {
        forall i | 0 <= i < |e0| ensures e0[i] != '.' { assert e0[i] == e[i]; }
      }
      DottedSuffix(init, e0);
      assert c != '.' by { assert c == e[|e| - 1]; }
      if EndsWith(s, "." + e) {
        assert last == c by { assert s[|s| - |"." + e|..][|e|] == s[|s| - 1]; }
        assert init[|init| - |"." + e0|..] == s[|s| - |"." + e|..][..|e|];
        assert ("." + e)[..|e|] == "." + e0;
        assert EndsWith(init, "." + e0);
      }
      if ExtensionOf(s) == Some(e) {
        assert last != '.';
        var x := ExtensionOf(init).value;
        assert x + [last] == e;
        assert x == e0 && last == c by { assert (x + [last])[..|x|] == x; }
        assert s[|s| - |"." + e|..] == init[|init| - |"." + e0|..] + [last];
      }
    }
  }

  /** Lower-casing a string lower-cases its extension and keeps the dots where they are. */
  lemma {:induction false} ExtensionOfLower(s: string)
    ensures ExtensionOf(Lower(s)).Some? == ExtensionOf(s).Some?
    ensures ExtensionOf(s).Some? ==> ExtensionOf(Lower(s)).value == Lower(ExtensionOf(s).value)
    decreases |s|
  {
    if s != [] {
      var init, c := s[..|s| - 1], s[|s| - 1];
      assert s == init + [c];
      LowerAppend(init, c);
      ExtensionOfLower(init);
      assert LowerChar(c) == '.' <==> c == '.';
      if c != '.' && ExtensionOf(init).Some? {
        var e := ExtensionOf(init).value;
        LowerAppend(e, c);
      }
    }
  }

  /** Lower-casing distributes over appending one character. */
  lemma {:induction false} LowerAppend(e: string, c: char)
    ensures Lower(e + [c]) == Lower(e) + [LowerChar(c)]
  {
    if e != [] {
      assert (e + [c])[1..] == e[1..] + [c];
      LowerAppend(e[1..], c);
    }
  }

  /**
   * The case-insensitive extension test of a regular expression
   * `/\.(a|b|...)$/i` looks only at the text after the last dot:
   * it passes exactly when that text, lower-cased, is one of the
   * alternatives.
   */
  lemma ExtensionTest(s: string, exts: seq<string>)
    requires forall i :: 0 <= i < |exts| ==> '.' !in exts[i]
    ensures EndsWithExtension(s, exts) <==>
      ExtensionOf(s).Some? && Lower(ExtensionOf(s).value) in exts
  {
    ExtensionOfLower(s);
    forall i | 0 <= i < |exts|
      ensures EndsWith(Lower(s), "." + exts[i]) <==> ExtensionOf(Lower(s)) == Some(exts[i])
    {
      DottedSuffix(Lower(s), exts[i]);
    }
  }

  /** Lower-casing keeps a suffix that is already in lower case. */
  lemma {:induction false} LowerKeepsSuffix(s: string, suffix: string)
    requires EndsWith(s, suffix) && Lower(suffix) == suffix
    ensures EndsWith(Lower(s), suffix)
  {
    if |s| == |suffix| {
      assert s == s[|s| - |suffix|..] == suffix;
    } else {
      var t := s[1..];
      assert t[|t| - |suffix|..] == s[|s| - |suffix|..];
      LowerKeepsSuffix(t, suffix);
      assert Lower(s) == [LowerChar(s[0])] + Lower(t);
      assert Lower(s)[|s| - |suffix|..] == Lower(t)[|t| - |suffix|..];
    }
  }
}
