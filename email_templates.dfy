/**
 * The placeholder engine of the EmailTemplate model: listing and validating
 * the placeholders of a stored template, and compiling it against a variable map.
 */
module EmailTemplates {
  import opened Options
  import opened Sequences
  import opened VariableMaps
  import opened TemplateText
  import opened StrReplace
  import opened Placeholders
  import opened TemplateRecord

  /** The three texts `compile` returns; the plain-text body stays absent when the template has none. */
  datatype Compiled = Compiled(subject: string, htmlContent: string, textContent: Option<string>)

  /**
   * The values behind the system variables, read from configuration and the
   * clock when `compile` runs; `configuredAppName` is None when `app.name` is not configured.
   */
  datatype Environment = Environment(
    configuredAppName: Option<string>,
    appUrl: string,
    currentYear: string,
    currentDate: string)

  const FallbackAppName := "Indonet Analytics Hub"

  /** PHP truthiness of a string: only "" and "0" are falsy. */
  predicate Truthy(s: string)
  {
    s != "" && s != "0"
  }

  // ---------------------------------------------------------------- listing

  /** The three bodies joined by single spaces, a missing text body counting as "". */
  function Content(t: Template): string
  {
    t.subject + " " + t.htmlContent + " " + t.textContent.GetOr("")
  }

  /** `getPlaceholders`: the distinct placeholder names of the joined content, first seen first. */
  function GetPlaceholders(t: Template): (names: seq<string>)
    ensures Distinct(names)
    ensures forall n :: n in names ==> IsName(n) && Occurs(Token(n), Content(t))
  {
    ExtractPlaceholders(Content(t))
  }

  /** Every placeholder of the subject is listed, whatever the other fields hold. */
  lemma SubjectPlaceholdersListed(t: Template)
    ensures forall n :: n in ExtractPlaceholders(t.subject) ==> n in GetPlaceholders(t)
  {
    var rest := " " + t.htmlContent + " " + t.textContent.GetOr("");
    assert Content(t) == t.subject + rest;
    ScanPrefix(t.subject, rest);
  }

  /** When neither the subject nor the HTML body leaves a `{{` open, the joined content scans field by field. */
  lemma ScanOfClosedFields(t: Template)
    requires OpeningsClosed(t.subject) && OpeningsClosed(t.htmlContent)
    ensures Scan(Content(t)) == Scan(t.subject) + Scan(t.htmlContent) + Scan(t.textContent.GetOr(""))
  {
    var s, h, x := t.subject, t.htmlContent, t.textContent.GetOr("");
    ConcatAssoc(s, " ", h + " " + x);
    ConcatAssoc(s + " " + h, " ", x);
    ConcatAssoc(s, " ", h);
    assert Content(t) == s + " " + (h + " " + x);
    ScanJoin(s, h + " " + x);
    ScanJoin(h, x);
    ConcatAssoc(Scan(s), Scan(h), Scan(x));
  }

  /**
   * Under the same condition the list holds exactly the placeholders of the
   * three fields, in the order they are first met, without repeats.
   */
  lemma PlaceholdersOfClosedFields(t: Template)
    requires OpeningsClosed(t.subject) && OpeningsClosed(t.htmlContent)
    ensures GetPlaceholders(t) == Dedup(Scan(t.subject) + Scan(t.htmlContent) + Scan(t.textContent.GetOr("")))
    ensures forall n :: n in GetPlaceholders(t) <==>
      n in ExtractPlaceholders(t.subject) || n in ExtractPlaceholders(t.htmlContent)
      || n in ExtractPlaceholders(t.textContent.GetOr(""))
  {
    var s, h, x := Scan(t.subject), Scan(t.htmlContent), Scan(t.textContent.GetOr(""));
    ScanOfClosedFields(t);
    assert GetPlaceholders(t) == Dedup(s + h + x);
    forall n ensures n in GetPlaceholders(t) <==> n in s || n in h || n in x {
      assert n in s + h + x <==> n in s || n in h || n in x;
    }
  }

  /**
   * Without that condition an HTML placeholder can be lost: a subject ending
   * in an unterminated `{{a` makes the scan of the joined content swallow it.
   */
  lemma OpenSubjectHidesHtmlPlaceholder()
    ensures var t := Template("", "{{a", "{{c}}", None, "general", 0);
      "c" in ExtractPlaceholders(t.htmlContent) && "c" !in GetPlaceholders(t)
  {
    var t := Template("", "{{a", "{{c}}", None, "general", 0);
    HtmlOfOpenExample();
    assert Content(t) == "{{a {{c}} ";
    ScanOfOpenJoin();
  }

  /** The HTML body of that template, taken alone, holds the placeholder "c". */
  lemma HtmlOfOpenExample()
    ensures "c" in ExtractPlaceholders("{{c}}")
  {
    ScanToken("c", "");
    assert Token("c") + "" == "{{c}}";
  }

  /** The scan of the joined content of that template captures the single name "a {{c". */
  lemma ScanOfOpenJoin()
    ensures Scan("{{a {{c}} ") == ["a {{c"]
  {
    var content := "{{a {{c}} ";
    assert content[2..] == "a {{c}} ";
    RunLengthIs(content[2..], 5);
    assert MatchAt(content) == Some(5);
    assert content[2..7] == "a {{c";
    assert content[9..] == " ";
    assert MatchAt(" ") == None;
    assert Scan(" ") == Scan("");
  }

  // ------------------------------------------------------------- validation

  /** The names of `names` whose bracketed key is absent from `vars`, in order. */
  function Unresolved(names: seq<string>, vars: seq<Entry>): seq<string>
    decreases |names|
  {
    if names == [] then []
    else
      var last := names[|names| - 1];
      Unresolved(names[..|names| - 1], vars) + (if HasKey(vars, Token(last)) then [] else [last])
  }

  lemma {:induction false} UnresolvedSpec(names: seq<string>, vars: seq<Entry>)
    ensures forall n :: n in Unresolved(names, vars) <==> n in names && !HasKey(vars, Token(n))
    ensures IsSubsequence(Unresolved(names, vars), names)
    ensures Distinct(names) ==> Distinct(Unresolved(names, vars))
    decreases |names|
  {
    if names != [] {
      var init, last := names[..|names| - 1], names[|names| - 1];
      UnresolvedSpec(init, vars);
      assert names == init + [last];
      var u := Unresolved(names, vars);
      if HasKey(vars, Token(last)) {
        assert u == Unresolved(init, vars);
      } else {
        assert u[..|u| - 1] == Unresolved(init, vars);
      }
    }
  }

  /**
   * `validatePlaceholders`: the listed placeholders whose bracketed key
   * `{{name}}` is not a key of `vars` (whatever value a present key holds),
   * in listing order.
   */
  method ValidatePlaceholders(t: Template, vars: seq<Entry>) returns (missing: seq<string>)
    ensures missing == Unresolved(GetPlaceholders(t), vars)
    ensures forall n :: n in missing <==> n in GetPlaceholders(t) && !HasKey(vars, Token(n))
    ensures IsSubsequence(missing, GetPlaceholders(t))
    ensures Distinct(missing)
  {
    var placeholders := GetPlaceholders(t);
    missing := [];
    var i := 0;
    while i < |placeholders|
      invariant 0 <= i <= |placeholders|
      invariant missing == Unresolved(placeholders[..i], vars)
    {
      var key := Token(placeholders[i]);
      if !HasKey(vars, key) {
        missing := missing + [placeholders[i]];
      }
      assert placeholders[..i + 1][..i] == placeholders[..i];
      i := i + 1;
    }
    assert placeholders[..i] == placeholders;
    UnresolvedSpec(placeholders, vars);
  }

  // ------------------------------------------------------------ compilation

  /** `str_replace` applied for each entry in turn, each on the output of the previous one. */
  function Substitute(s: string, vars: seq<Entry>): string
    decreases |vars|
  {
    if vars == [] then s else Substitute(ReplaceAll(s, vars[0].0, vars[0].1), vars[1..])
  }

  /** As `Substitute`, but a step is skipped whenever the text is falsy at that point. */
  function SubstituteIfTruthy(s: string, vars: seq<Entry>): string
    decreases |vars|
  {
    if vars == [] then s
    else SubstituteIfTruthy(if Truthy(s) then ReplaceAll(s, vars[0].0, vars[0].1) else s, vars[1..])
  }

  /** The system variables, in their fixed order. */
  function DefaultVariables(env: Environment): (d: seq<Entry>)
    ensures Keys(d) == ["{{app_name}}", "{{app_url}}", "{{current_year}}", "{{current_date}}"]
    ensures UniqueKeys(d)
    ensures d[0].1 == if env.configuredAppName.Some? then env.configuredAppName.value else FallbackAppName
  {
    [("{{app_name}}", env.configuredAppName.GetOr(FallbackAppName)),
     ("{{app_url}}", env.appUrl),
     ("{{current_year}}", env.currentYear),
     ("{{current_date}}", env.currentDate)]
  }

  /** `array_merge($defaultVariables, $variables)`. */
  function AllVariables(vars: seq<Entry>, env: Environment): seq<Entry>
  {
    Merge(DefaultVariables(env), vars)
  }

  /**
   * `compile`: each field is run through every merged entry in turn; the
   * plain-text body only while it is truthy, and an absent one stays absent.
   */
  method Compile(t: Template, vars: seq<Entry>, env: Environment) returns (out: Compiled)
    ensures out.subject == Substitute(t.subject, AllVariables(vars, env))
    ensures out.htmlContent == Substitute(t.htmlContent, AllVariables(vars, env))
    ensures out.textContent == match t.textContent
      case None => None
      case Some(x) => Some(SubstituteIfTruthy(x, AllVariables(vars, env)))
  {
    var all := Merge(DefaultVariables(env), vars);
    var subject, htmlContent, textContent := t.subject, t.htmlContent, t.textContent;
    var i := 0;
    while i < |all|
      invariant 0 <= i <= |all|
      invariant Substitute(subject, all[i..]) == Substitute(t.subject, all)
      invariant Substitute(htmlContent, all[i..]) == Substitute(t.htmlContent, all)
      invariant textContent.None? <==> t.textContent.None?
      invariant textContent.Some? ==>
        SubstituteIfTruthy(textContent.value, all[i..]) == SubstituteIfTruthy(t.textContent.value, all)
    {
      var (placeholder, value) := all[i];
      subject := ReplaceAll(subject, placeholder, value);
      htmlContent := ReplaceAll(htmlContent, placeholder, value);
      if textContent.Some? && Truthy(textContent.value) {
        textContent := Some(ReplaceAll(textContent.value, placeholder, value));
      }
      assert all[i..][1..] == all[i + 1..];
      i := i + 1;
    }
    out := Compiled(subject, htmlContent, textContent);
  }

  /** A field that contains none of the keys comes back unchanged. */
  lemma {:induction false} SubstituteWithoutKeys(s: string, vars: seq<Entry>)
    requires forall i :: 0 <= i < |vars| ==> !Occurs(vars[i].0, s)
    ensures Substitute(s, vars) == s
    decreases |vars|
  {
    if vars != [] {
      ReplaceAbsentNeedle(s, vars[0].0, vars[0].1);
      SubstituteWithoutKeys(s, vars[1..]);
    }
  }

  /** The same for the plain-text body: a body that contains none of the keys comes back unchanged. */
  lemma {:induction false} SubstituteIfTruthyWithoutKeys(s: string, vars: seq<Entry>)
    requires forall i :: 0 <= i < |vars| ==> !Occurs(vars[i].0, s)
    ensures SubstituteIfTruthy(s, vars) == s
    decreases |vars|
  {
    if vars != [] {
      ReplaceAbsentNeedle(s, vars[0].0, vars[0].1);
      SubstituteIfTruthyWithoutKeys(s, vars[1..]);
    }
  }

  /** A falsy plain-text body ("" or "0") is never substituted. */
  lemma {:induction false} FalsyTextUntouched(s: string, vars: seq<Entry>)
    requires !Truthy(s)
    ensures SubstituteIfTruthy(s, vars) == s
    decreases |vars|
  {
    if vars != [] {
      FalsyTextUntouched(s, vars[1..]);
    }
  }

  /**
   * The truthiness guard only makes a difference for a key "0": with any
   * other keys the plain-text body is substituted like the other fields.
   */
  lemma {:induction false} GuardMattersOnlyForZeroKey(s: string, vars: seq<Entry>)
    requires forall i :: 0 <= i < |vars| ==> vars[i].0 != "0"
    ensures SubstituteIfTruthy(s, vars) == Substitute(s, vars)
    decreases |vars|
  {
    if vars != [] {
      var (k, v) := vars[0];
      if !Truthy(s) {
        assert ReplaceAll(s, k, v) == s by {
          if k != [] && |s| >= |k| {
            assert s == "0" && |k| == 1;
            assert s[..1] != k;
            assert ReplaceAll(s, k, v) == [s[0]] + ReplaceAll("", k, v);
          }
        }
      }
      GuardMattersOnlyForZeroKey(if Truthy(s) then ReplaceAll(s, k, v) else s, vars[1..]);
    }
  }

  /**
   * Substitution on well-formed text: every placeholder whose token is a key
   * becomes the first value stored under it, every other placeholder is left
   * verbatim. Values must be free of `{`, or a later key could match inside them.
   */
  lemma {:induction false} SubstituteRender(ps: seq<Piece>, vars: seq<Entry>)
    requires WellFormed(ps)
    requires forall i :: 0 <= i < |vars| ==> IsTokenKey(vars[i].0) && '{' !in vars[i].1
    ensures Substitute(Render(ps), vars) == Render(Resolve(ps, vars))
    decreases |vars|
  {
    if vars == [] {
      ResolveNothing(ps);
    } else {
      var (key, v) := vars[0];
      var k := key[2..|key| - 2];
      IsTokenKeyIsToken(key);
      ReplaceInRender(ps, k, v);
      var once := Resolve(ps, [(key, v)]);
      ResolveKeepsWellFormed(ps, [(key, v)]);
      SubstituteRender(once, vars[1..]);
      assert vars[..1] == [(key, v)];
      ResolveInSteps(ps, vars);
      assert Substitute(Render(ps), vars) == Substitute(ReplaceAll(Render(ps), key, v), vars[1..]);
    }
  }

  /** Resolving against the first entry and then against the rest is resolving against all. */
  lemma {:induction false} ResolveInSteps(ps: seq<Piece>, vars: seq<Entry>)
    requires vars != []
    ensures Resolve(Resolve(ps, vars[..1]), vars[1..]) == Resolve(ps, vars)
  {
    if ps != [] {
      ResolveInSteps(ps[1..], vars);
      assert vars[..1] == [vars[0]];
      if ps[0].Slot? {
        var n := ps[0].name;
        if vars[0].0 != Token(n) {
          assert Get(vars, Token(n)) == Get(vars[1..], Token(n));
        }
      }
    }
  }

  /** The caller's value wins over a system default stored under the same key. */
  lemma CallerValueWins(vars: seq<Entry>, env: Environment, key: string)
    requires UniqueKeys(vars) && HasKey(vars, key)
    ensures Get(AllVariables(vars, env), key) == Get(vars, key)
  {
    MergeGet(DefaultVariables(env), vars, key);
  }

  /** A key the caller does not supply keeps its system default, if it has one. */
  lemma DefaultUsedOtherwise(vars: seq<Entry>, env: Environment, key: string)
    requires UniqueKeys(vars) && !HasKey(vars, key)
    ensures Get(AllVariables(vars, env), key) == Get(DefaultVariables(env), key)
  {
    MergeGet(DefaultVariables(env), vars, key);
  }

  /**
   * The four system variables come first, in their fixed order and whether or
   * not the caller overrides them; the caller's new keys follow in the caller's order.
   */
  lemma MergedKeyOrder(vars: seq<Entry>, env: Environment)
    requires UniqueKeys(vars)
    ensures Keys(AllVariables(vars, env))
      == ["{{app_name}}", "{{app_url}}", "{{current_year}}", "{{current_date}}"]
         + Fresh(Keys(vars), ["{{app_name}}", "{{app_url}}", "{{current_year}}", "{{current_date}}"])
    ensures UniqueKeys(AllVariables(vars, env))
  {
    MergeKeyOrder(DefaultVariables(env), vars);
    MergeKeepsKeysUnique(DefaultVariables(env), vars);
  }

  /**
   * Substitution is sequential, not against a snapshot: a value inserted for
   * an earlier key is rewritten by a later key.
   */
  lemma LaterKeysSeeEarlierValues()
    ensures Substitute("{{a}}", [("{{a}}", "{{b}}"), ("{{b}}", "B")]) == "B"
  {
    var vars := [("{{a}}", "{{b}}"), ("{{b}}", "B")];
    assert ReplaceAll("{{a}}", "{{a}}", "{{b}}") == "{{b}}" + ReplaceAll("", "{{a}}", "{{b}}");
    assert ReplaceAll("{{b}}", "{{b}}", "B") == "B" + ReplaceAll("", "{{b}}", "B");
    assert vars[1..] == [("{{b}}", "B")];
    assert vars[1..][1..] == [];
  }

  // ------------------------------------------------------ free-form templates

  /** The entries of `data` with each bare key wrapped as `{{key}}`. */
  function Bracketed(data: seq<Entry>): (vars: seq<Entry>)
    ensures |vars| == |data|
    ensures forall i :: 0 <= i < |data| ==> vars[i] == (Token(data[i].0), data[i].1)
  {
    if data == [] then [] else [(Token(data[0].0), data[0].1)] + Bracketed(data[1..])
  }

  /** `compileTemplate`: substitutes `{{key}}` for each bare key of `data`, in the order of `data`. */
  method CompileTemplate(template: string, data: seq<Entry>) returns (r: string)
    ensures r == Substitute(template, Bracketed(data))
  {
    r := template;
    var i := 0;
    while i < |data|
      invariant 0 <= i <= |data|
      invariant Substitute(r, Bracketed(data)[i..]) == Substitute(template, Bracketed(data))
    {
      var (key, value) := data[i];
      var placeholder := "{{" + key + "}}";
      r := ReplaceAll(r, placeholder, value);
      assert Bracketed(data)[i..][1..] == Bracketed(data)[i + 1..];
      i := i + 1;
    }
  }

  /**
   * On a well-formed template, `compileTemplate` replaces each placeholder that
   * has a key in `data` and leaves the others unchanged, as its documentation states.
   */
  lemma CompileTemplateResolves(ps: seq<Piece>, data: seq<Entry>)
    requires WellFormed(ps)
    requires forall i :: 0 <= i < |data| ==> IsSlotName(data[i].0) && '{' !in data[i].1
    ensures Substitute(Render(ps), Bracketed(data)) == Render(Resolve(ps, Bracketed(data)))
  {
    var vars := Bracketed(data);
    forall i | 0 <= i < |vars| ensures IsTokenKey(vars[i].0) {
      var n := data[i].0;
      assert vars[i].0 == Token(n);
      assert Token(n)[2..|Token(n)| - 2] == n;
    }
    SubstituteRender(ps, vars);
  }

  /**
   * Why `CompileTemplateResolves` needs keys without braces: the key `a}` builds
   * `{{a}}}`, which rewrites the placeholder `{{a}}` although `a` has no key.
   */
  lemma BraceInKeyRewritesKeylessPlaceholder()
    ensures WellFormed([Slot("a"), Literal("}")])
    ensures Get(Bracketed([("a}", "V")]), Token("a")).None?
    ensures Render([Slot("a"), Literal("}")]) == "{{a}}}"
    ensures Render(Resolve([Slot("a"), Literal("}")], Bracketed([("a}", "V")]))) == "{{a}}}"
    ensures Substitute(Render([Slot("a"), Literal("}")]), Bracketed([("a}", "V")])) == "V"
  {
    var ps := [Slot("a"), Literal("}")];
    var vars := Bracketed([("a}", "V")]);
    assert Token("a}") == "{{a}}}";
    assert vars[0] == (Token("a}"), "V");
    assert vars == [("{{a}}}", "V")];
    assert Token("a") != "{{a}}}";
    assert Resolve(ps, vars) == ps;
    assert ps[1..][1..] == [];
    assert Render(ps) == "{{a}}" + ("}" + "");
    assert ReplaceAll("{{a}}}", "{{a}}}", "V") == "V" + ReplaceAll("", "{{a}}}", "V");
    assert vars[1..] == [];
  }
}
