/** PHP's `str_replace` with a single string search, and what it does to well-formed template text. */
module StrReplace {
  import opened Sequences
  import opened TemplateText

  /** `needle` occurs somewhere in `s`. */
  predicate Occurs(needle: string, s: string)
  {
    exists i :: 0 <= i <= |s| && needle <= s[i..]
  }

  /**
   * `str_replace(needle, value, s)`: every occurrence of `needle`, found left
   * to right without overlap, is replaced by `value`; the inserted values are
   * not searched again. An empty `needle` leaves `s` unchanged.
   */
  function ReplaceAll(s: string, needle: string, value: string): string
    decreases |s|
  {
    if needle == [] || |s| < |needle| then s
    else if s[..|needle|] == needle then value + ReplaceAll(s[|needle|..], needle, value)
    else [s[0]] + ReplaceAll(s[1..], needle, value)
  }

  /** Text that does not contain the needle comes back unchanged. */
  lemma {:induction false} ReplaceAbsentNeedle(s: string, needle: string, value: string)
    requires !Occurs(needle, s)
    ensures ReplaceAll(s, needle, value) == s
    decreases |s|
  {
    if needle != [] && |s| >= |needle| {
      assert s[0..] == s;
      assert s[..|needle|] != needle;
      assert !Occurs(needle, s[1..]) by {
        forall i | 0 <= i <= |s[1..]| ensures !(needle <= s[1..][i..]) {
          assert s[1..][i..] == s[i + 1..];
        }
      }
      ReplaceAbsentNeedle(s[1..], needle, value);
    }
  }

  /** Replacing a needle by itself changes nothing. */
  lemma {:induction false} ReplaceBySelf(s: string, needle: string)
    ensures ReplaceAll(s, needle, needle) == s
    decreases |s|
  {
    if needle != [] && |s| >= |needle| {
      if s[..|needle|] == needle {
        ReplaceBySelf(s[|needle|..], needle);
        assert s == s[..|needle|] + s[|needle|..];
      } else {
        ReplaceBySelf(s[1..], needle);
        assert s == [s[0]] + s[1..];
      }
    }
  }

  /** A needle starting with `{` never matches inside text free of `{`. */
  lemma {:induction false} ReplaceAfterPlain(t: string, x: string, needle: string, value: string)
    requires '{' !in t
    requires |needle| > 0 && needle[0] == '{'
    ensures ReplaceAll(t + x, needle, value) == t + ReplaceAll(x, needle, value)
    decreases |t|
  {
    if t == [] {
      assert t + x == x;
    } else {
      var s := t + x;
      assert t[0] in t;
      if |s| >= |needle| {
        assert s[..|needle|] != needle by {
          assert s[..|needle|][0] == t[0];
        }
        assert ReplaceAll(s, needle, value) == [s[0]] + ReplaceAll(s[1..], needle, value);
        assert s[1..] == t[1..] + x;
        assert '{' !in t[1..];
        ReplaceAfterPlain(t[1..], x, needle, value);
        assert t == [t[0]] + t[1..];
      }
    }
  }

  /** Where two tokens overlap at their start, they are the same token. */
  lemma TokenPrefix(name: string, k: string, x: string)
    requires IsSlotName(name) && IsSlotName(k)
    requires |Token(name) + x| >= |Token(k)|
    requires (Token(name) + x)[..|Token(k)|] == Token(k)
    ensures name == k
  {
    var s := Token(name) + x;
    var n := Token(k);
    assert s[..|n|][2 + |k|] == s[2 + |k|] == '}';
    assert |k| >= |name|;
    assert s[..|n|][2 + |name|] == n[2 + |name|] == '}';
    assert |k| == |name|;
    assert s[2..2 + |k|] == name;
    assert n[2..2 + |k|] == k;
    assert s[..|n|][2..2 + |k|] == s[2..2 + |k|];
  }

  /** The token of `k` matches exactly the token of `k`, and no other token. */
  lemma ReplaceAtToken(name: string, x: string, k: string, value: string)
    requires IsSlotName(name) && IsSlotName(k)
    ensures ReplaceAll(Token(name) + x, Token(k), value)
      == (if name == k then value else Token(name)) + ReplaceAll(x, Token(k), value)
  {
    if name == k {
      ReplaceAtSameToken(name, x, value);
    } else {
      ReplaceAtOtherToken(name, x, k, value);
    }
  }

  lemma ReplaceAtSameToken(k: string, x: string, value: string)
    ensures ReplaceAll(Token(k) + x, Token(k), value) == value + ReplaceAll(x, Token(k), value)
  {
    var s := Token(k) + x;
    assert s[..|Token(k)|] == Token(k);
    assert s[|Token(k)|..] == x;
  }

  /** When the needle does not match at the start, the first character is kept and the scan moves on. */
  lemma ReplaceSkipsFirst(s: string, needle: string, value: string)
    requires s != [] && !(needle <= s)
    ensures ReplaceAll(s, needle, value) == [s[0]] + ReplaceAll(s[1..], needle, value)
  {
    if |s| < |needle| {
      assert [s[0]] + s[1..] == s;
    }
  }

  /** A token of another name does not match at either of the two `{` that open a token. */
  lemma OtherTokenNoMatch(name: string, x: string, k: string)
    requires IsSlotName(name) && IsSlotName(k) && name != k
    ensures !(Token(k) <= Token(name) + x)
    ensures !(Token(k) <= (Token(name) + x)[1..])
  {
    var s := Token(name) + x;
    if Token(k) <= s {
      TokenPrefix(name, k, x);
    }
    assert s[2] == name[0] && Token(k)[1] == '{';
  }

  /** When the needle matches at neither of the first two positions, both characters are kept. */
  lemma ReplaceSkipsTwo(s: string, needle: string, value: string)
    requires |s| >= 2 && !(needle <= s) && !(needle <= s[1..])
    ensures ReplaceAll(s, needle, value) == s[..2] + ReplaceAll(s[2..], needle, value)
  {
    ReplaceSkipsFirst(s, needle, value);
    ReplaceSkipsFirst(s[1..], needle, value);
    assert s[1..][1..] == s[2..];
    ConcatAssoc([s[0]], [s[1]], ReplaceAll(s[2..], needle, value));
    assert s[..2] == [s[0]] + [s[1]];
  }

  /** A token followed by more text: its two opening braces, then the name and the closing braces. */
  lemma TokenSplit(name: string, x: string)
    requires IsSlotName(name)
    ensures Token(name) == "{{" + (name + "}}")
    ensures (Token(name) + x)[..2] == "{{"
    ensures (Token(name) + x)[2..] == (name + "}}") + x
    ensures '{' !in name + "}}"
  {
    ConcatAssoc("{{", name, "}}");
    ConcatAssoc("{{", name + "}}", x);
  }

  lemma ReplaceAtOtherToken(name: string, x: string, k: string, value: string)
    requires IsSlotName(name) && IsSlotName(k) && name != k
    ensures ReplaceAll(Token(name) + x, Token(k), value) == Token(name) + ReplaceAll(x, Token(k), value)
  {
    OtherTokenNoMatch(name, x, k);
    ReplaceSkipsTwo(Token(name) + x, Token(k), value);
    TokenSplit(name, x);
    ReplaceAfterPlain(name + "}}", x, Token(k), value);
    ConcatAssoc("{{", name + "}}", ReplaceAll(x, Token(k), value));
  }

  /**
   * In a well-formed text, replacing the token of `k` turns exactly the
   * placeholders named `k` into `value` and leaves everything else alone.
   */
  lemma {:induction false} ReplaceInRender(ps: seq<Piece>, k: string, value: string)
    requires WellFormed(ps) && IsSlotName(k)
    ensures ReplaceAll(Render(ps), Token(k), value) == Render(Resolve(ps, [(Token(k), value)]))
  {
    if ps != [] {
      assert WellFormed(ps[1..]) by {
        forall i | 0 <= i < |ps| - 1 ensures ps[1..][i] == ps[i + 1] { }
      }
      ReplaceInRender(ps[1..], k, value);
      var vars := [(Token(k), value)];
      match ps[0]
      case Literal(t) =>
        ReplaceAfterPlain(t, Render(ps[1..]), Token(k), value);
      case Slot(n) =>
        ReplaceAtToken(n, Render(ps[1..]), k, value);
        if n != k {
          assert Token(n) != Token(k) by {
            if Token(n) == Token(k) { TokenInjective(n, k); }
          }
        }
    }
  }
}
