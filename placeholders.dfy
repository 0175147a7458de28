/**
 * Placeholder extraction: `preg_match_all('/\{\{([^}]+)\}\}/', ...)`
 * followed by `array_unique` over the captured names.
 */
module Placeholders {
  import opened Options
  import opened Sequences
  import opened TemplateText
  import opened StrReplace

  /** What the capture group `[^}]+` may hold. */
  predicate IsName(name: string)
  {
    |name| > 0 && '}' !in name
  }

  /** Length of the longest prefix of `s` without `}`: how far the greedy `[^}]` run reaches. */
  function RunLength(s: string): (n: nat)
    ensures n <= |s|
    ensures forall j :: 0 <= j < n ==> s[j] != '}'
    ensures n < |s| ==> s[n] == '}'
  {
    if s == [] || s[0] == '}' then 0 else 1 + RunLength(s[1..])
  }

  /**
   * The regex anchored at the start of `s`: Some(n) when `s` begins with a
   * match whose captured name has length n (the match is n + 4 long).
   * `[^}]+` is greedy and what follows it must be `}`, so backtracking to a
   * shorter run can never succeed and the maximal run decides the match.
   */
  function MatchAt(s: string): (m: Option<nat>)
    ensures m.Some? ==> 0 < m.value && m.value + 4 <= |s|
    ensures m.Some? ==> s[0] == '{' && s[1] == '{' && s[m.value + 2] == '}' && s[m.value + 3] == '}'
    ensures m.Some? ==> forall j :: 2 <= j < m.value + 2 ==> s[j] != '}'
  {
    if |s| >= 2 && s[0] == '{' && s[1] == '{' then
      var n := RunLength(s[2..]);
      if 0 < n && n + 4 <= |s| && s[n + 2] == '}' && s[n + 3] == '}' then
        assert forall j :: 2 <= j < n + 2 ==> s[j] == s[2..][j - 2];
        Some(n)
      else None
    else None
  }

  /**
   * All captured names, left to right: after a match the search resumes
   * behind it, after a failed attempt one character further on.
   */
  function Scan(s: string): seq<string>
    decreases |s|
  {
    if s == [] then []
    else
      match MatchAt(s)
      case Some(n) => [s[2..n + 2]] + Scan(s[n + 4..])
      case None => Scan(s[1..])
  }

  lemma OccursInSuffix(t: string, s: string, j: nat)
    requires j <= |s| && Occurs(t, s[j..])
    ensures Occurs(t, s)
  {
    var i :| 0 <= i <= |s[j..]| && t <= s[j..][i..];
    assert s[j..][i..] == s[i + j..];
  }

  /** Every name the scan captures is a possible capture, and its token occurs in the text. */
  lemma {:induction false} ScanSound(s: string)
    ensures forall k :: 0 <= k < |Scan(s)| ==> IsName(Scan(s)[k]) && Occurs(Token(Scan(s)[k]), s)
    decreases |s|
  {
    if s != [] {
      match MatchAt(s)
      case Some(n) =>
        var name, rest := s[2..n + 2], Scan(s[n + 4..]);
        ScanSound(s[n + 4..]);
        assert IsName(name) by {
          forall j | 0 <= j < |name| ensures name[j] != '}' { assert name[j] == s[j + 2]; }
        }
        assert Occurs(Token(name), s) by {
          assert s[..n + 4] == Token(name);
          assert Token(name) <= s[0..];
        }
        forall k | 0 <= k < |rest| ensures Occurs(Token(rest[k]), s) {
          OccursInSuffix(Token(rest[k]), s, n + 4);
        }
        assert Scan(s) == [name] + rest;
      case None =>
        ScanSound(s[1..]);
        forall k | 0 <= k < |Scan(s[1..])| ensures Occurs(Token(Scan(s[1..])[k]), s) {
          OccursInSuffix(Token(Scan(s[1..])[k]), s, 1);
        }
    }
  }

  /** `extractPlaceholders`: the distinct captured names, in the order they are first seen. */
  function ExtractPlaceholders(content: string): (names: seq<string>)
    ensures Distinct(names)
    ensures forall n :: n in names <==> n in Scan(content)
    ensures forall n :: n in names ==> IsName(n) && Occurs(Token(n), content)
  {
    ScanSound(content);
    Dedup(Scan(content))
  }

  /** Text without any `{{` holds no placeholder. */
  lemma {:induction false} NoOpeningNoPlaceholders(s: string)
    requires forall i :: 0 <= i < |s| - 1 ==> !(s[i] == '{' && s[i + 1] == '{')
    ensures Scan(s) == [] && ExtractPlaceholders(s) == []
    decreases |s|
  {
    if s != [] {
      assert MatchAt(s) == None;
      NoOpeningNoPlaceholders(s[1..]);
    }
  }

  lemma {:induction false} ScanAfterPlain(t: string, x: string)
    requires '{' !in t
    ensures Scan(t + x) == Scan(x)
    decreases |t|
  {
    if t != [] {
      assert t[0] in t;
      assert MatchAt(t + x) == None;
      assert Scan(t + x) == Scan((t + x)[1..]);
      assert (t + x)[1..] == t[1..] + x;
      assert '{' !in t[1..];
      ScanAfterPlain(t[1..], x);
    } else {
      assert t + x == x;
    }
  }

  lemma {:induction false} RunLengthOfName(name: string, x: string)
    requires '}' !in name
    ensures RunLength(name + "}" + x) == |name|
    decreases |name|
  {
    if name != [] {
      assert name[0] in name;
      assert (name + "}" + x)[1..] == name[1..] + "}" + x;
      assert '}' !in name[1..];
      RunLengthOfName(name[1..], x);
    }
  }

  /** Completeness of the matcher: a placeholder at the start of a text is matched, whole. */
  lemma MatchAtComplete(n: string, x: string)
    requires IsName(n)
    ensures MatchAt(Token(n) + x) == Some(|n|)
  {
    assert (Token(n) + x)[2..] == n + "}" + ("}" + x);
    RunLengthOfName(n, "}" + x);
  }

  /** A placeholder at the start of a text is captured whole, and scanning resumes right after it. */
  lemma ScanToken(n: string, x: string)
    requires IsName(n)
    ensures Scan(Token(n) + x) == [n] + Scan(x)
  {
    var s := Token(n) + x;
    MatchAtComplete(n, x);
    assert s[2..|n| + 2] == n;
    assert s[|n| + 4..] == x;
  }

  /**
   * Round trip with rendering: scanning a well-formed text finds exactly its
   * placeholders, in order and with repeats.
   */
  lemma {:induction false} ScanRender(ps: seq<Piece>)
    requires WellFormed(ps)
    ensures Scan(Render(ps)) == Slots(ps)
  {
    if ps != [] {
      assert WellFormed(ps[1..]) by {
        forall i | 0 <= i < |ps| - 1 ensures ps[1..][i] == ps[i + 1] { }
      }
      ScanRender(ps[1..]);
      var x := Render(ps[1..]);
      assert Render(ps) == Show(ps[0]) + x;
      match ps[0]
      case Literal(t) =>
        ScanAfterPlain(t, x);
      case Slot(n) =>
        ScanToken(n, x);
    }
  }

  /** Extraction on a well-formed text: its placeholder names, duplicates dropped. */
  lemma ExtractRender(ps: seq<Piece>)
    requires WellFormed(ps)
    ensures ExtractPlaceholders(Render(ps)) == Dedup(Slots(ps))
  {
    ScanRender(ps);
  }

  /** Every `{{` of `a` is followed, somewhere later in `a`, by a `}`. */
  predicate OpeningsClosed(a: string)
    decreases |a|
  {
    |a| < 2 || ((a[0] == '{' && a[1] == '{' ==> '}' in a[2..]) && OpeningsClosed(a[1..]))
  }

  lemma {:induction false} OpeningsClosedSuffix(a: string, j: nat)
    requires j <= |a| && OpeningsClosed(a)
    ensures OpeningsClosed(a[j..])
    decreases j
  {
    if j > 0 && |a| >= 2 {
      OpeningsClosedSuffix(a[1..], j - 1);
      assert a[1..][j - 1..] == a[j..];
    }
  }

  /** A run that stops inside `u` is not changed by what follows `u`. */
  lemma RunLengthExtend(u: string, w: string)
    requires RunLength(u) < |u|
    ensures RunLength(u + w) == RunLength(u)
  {
    RunLengthIs(u + w, RunLength(u));
  }

  /** The run length is pinned down by a `}`-free prefix followed by a `}`. */
  lemma RunLengthIs(s: string, n: nat)
    requires n < |s| && s[n] == '}'
    requires forall j :: 0 <= j < n ==> s[j] != '}'
    ensures RunLength(s) == n
  {
  }

  /** A match at the start of `a` is still a match at the start of any extension of `a`. */
  lemma MatchAtExtend(a: string, c: string)
    requires MatchAt(a).Some?
    ensures MatchAt(a + c) == MatchAt(a)
  {
    var n := MatchAt(a).value;
    assert a[2..][n] == a[n + 2];
    RunLengthExtend(a[2..], c);
    assert (a + c)[2..] == a[2..] + c;
  }

  /** One step of the scan at a match of length `n`. */
  lemma ScanAt(s: string, n: nat)
    requires MatchAt(s) == Some(n)
    ensures Scan(s) == [s[2..n + 2]] + Scan(s[n + 4..])
  {
  }

  /** One step of the scan over `a + c` when the match at the start lies inside `a`. */
  lemma ScanAtMatch(a: string, c: string, n: nat)
    requires MatchAt(a) == Some(n) && MatchAt(a + c) == Some(n)
    ensures Scan(a) == [a[2..n + 2]] + Scan(a[n + 4..])
    ensures Scan(a + c) == [a[2..n + 2]] + Scan(a[n + 4..] + c)
  {
    ScanAt(a, n);
    ScanAt(a + c, n);
    SliceOfAppend(a, c, 2, n + 2);
    DropOfAppend(a, c, n + 4);
  }

  /** With every `{{` of `a` closed, a failed attempt at the start of `a` fails on `a + " " + b` too. */
  lemma MatchAtJoinFails(a: string, b: string)
    requires a != [] && OpeningsClosed(a) && MatchAt(a).None?
    ensures MatchAt(a + " " + b).None?
  {
    var s := a + " " + b;
    if |a| >= 2 && a[0] == '{' && a[1] == '{' {
      var u := a[2..];
      assert '}' in u;
      var j :| 0 <= j < |u| && u[j] == '}';
      var n := RunLength(u);
      assert n <= j;
      RunLengthExtend(u, " " + b);
      assert s[2..] == u + (" " + b);
    }
  }

  /**
   * Scanning `a + " " + b` finds the matches of `a` and then those of `b`,
   * provided that no `{{` of `a` is left open: a match can then not run past
   * the separator.
   */
  lemma {:induction false} ScanJoin(a: string, b: string)
    requires OpeningsClosed(a)
    ensures Scan(a + " " + b) == Scan(a) + Scan(b)
    decreases |a|
  {
    var s := a + " " + b;
    if a == [] {
      assert s == " " + b;
      assert MatchAt(s) == None;
      assert Scan(s) == Scan(s[1..]);
      assert s[1..] == b;
    } else if MatchAt(a).Some? {
      var n := MatchAt(a).value;
      var c := " " + b;
      ConcatAssoc(a, " ", b);
      MatchAtExtend(a, c);
      ScanAtMatch(a, c, n);
      OpeningsClosedSuffix(a, n + 4);
      var a' := a[n + 4..];
      ScanJoin(a', b);
      ConcatAssoc(a', " ", b);
      ConcatAssoc([a[2..n + 2]], Scan(a'), Scan(b));
    } else {
      MatchAtJoinFails(a, b);
      assert Scan(s) == Scan(s[1..]);
      assert Scan(a) == Scan(a[1..]);
      assert s[1..] == a[1..] + " " + b;
      OpeningsClosedSuffix(a, 1);
      ScanJoin(a[1..], b);
    }
  }

  /** Text whose only `}` is possibly its last character holds no match. */
  lemma {:induction false} NoClosingNoMatch(a: string)
    requires |a| >= 1
    requires forall j :: 0 <= j < |a| - 1 ==> a[j] != '}'
    ensures Scan(a) == []
    decreases |a|
  {
    assert MatchAt(a).None?;
    if |a| > 1 {
      NoClosingNoMatch(a[1..]);
    }
  }

  /** When only the extension `a + c` matches at the start, `a` has no `}` before its last character. */
  lemma FailedMatchHasNoClosing(a: string, c: string)
    requires |a| >= 1 && MatchAt(a).None? && MatchAt(a + c).Some?
    ensures forall j :: 0 <= j < |a| - 1 ==> a[j] != '}'
  {
    var s := a + c;
    var m := MatchAt(s).value;
    if |a| >= 2 {
      assert m + 3 >= |a| by {
        if m + 3 < |a| {
          forall j | 0 <= j < m ensures a[2..][j] != '}' {
            assert a[2..][j] == s[j + 2];
          }
          RunLengthIs(a[2..], m);
        }
      }
      forall j | 0 <= j < |a| - 1 ensures a[j] != '}' {
        assert a[j] == s[j];
      }
    }
  }

  /** Where neither `a` nor `a + c` matches at the start, both scans move on by one character. */
  lemma ScanSkipBoth(a: string, c: string)
    requires a != [] && MatchAt(a).None? && MatchAt(a + c).None?
    ensures Scan(a) == Scan(a[1..]) && Scan(a + c) == Scan(a[1..] + c)
  {
    assert (a + c)[1..] == a[1..] + c;
  }

  /** Whatever follows `a`, the matches of `a` come first, unchanged. */
  lemma {:induction false} ScanPrefix(a: string, c: string)
    ensures Scan(a) <= Scan(a + c)
    decreases |a|
  {
    if a != [] {
      if MatchAt(a).Some? {
        var n := MatchAt(a).value;
        MatchAtExtend(a, c);
        ScanAtMatch(a, c, n);
        ScanPrefix(a[n + 4..], c);
        PrefixUnderHead([a[2..n + 2]], Scan(a[n + 4..]), Scan(a[n + 4..] + c));
      } else if MatchAt(a + c).None? {
        ScanSkipBoth(a, c);
        ScanPrefix(a[1..], c);
      } else {
        FailedMatchHasNoClosing(a, c);
        NoClosingNoMatch(a);
      }
    }
  }
}
