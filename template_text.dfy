/**
 * Well-formed template text, seen as a list of pieces: literal text and
 * `{{name}}` placeholder tokens. This is the reference against which the
 * regex scan and the literal substitution of the engine are proved.
 */
module TemplateText {
  import opened Options
  import opened VariableMaps

  datatype Piece = Literal(text: string) | Slot(name: string)

  /** The placeholder token for `name`: `'{{' . name . '}}'`. */
  function Token(name: string): (t: string)
    ensures |t| == |name| + 4
  {
    "{{" + name + "}}"
  }

  /** A placeholder name that cannot be confused with the token's braces. */
  predicate IsSlotName(name: string)
  {
    |name| > 0 && '{' !in name && '}' !in name
  }

  /** A variable-map key that is a bracketed placeholder token. */
  predicate IsTokenKey(key: string)
  {
    |key| >= 4 && key[..2] == "{{" && key[|key| - 2..] == "}}" && IsSlotName(key[2..|key| - 2])
  }

  /** Literal text holds no `{`, so no token can start inside it or straddle its border. */
  predicate WellFormed(ps: seq<Piece>)
  {
    forall i :: 0 <= i < |ps| ==>
      match ps[i]
      case Literal(t) => '{' !in t
      case Slot(n) => IsSlotName(n)
  }

  function Show(p: Piece): string
  {
    match p
    case Literal(t) => t
    case Slot(n) => Token(n)
  }

  function Render(ps: seq<Piece>): string
  {
    if ps == [] then "" else Show(ps[0]) + Render(ps[1..])
  }

  /** The placeholder names of `ps`, in order, repeats included. */
  function Slots(ps: seq<Piece>): (names: seq<string>)
    ensures forall n :: n in names <==> exists i :: 0 <= i < |ps| && ps[i] == Slot(n)
  {
    if ps == [] then []
    else
      assert forall i :: 0 < i < |ps| ==> ps[i] == ps[1..][i - 1];
      match ps[0]
      case Literal(_) => Slots(ps[1..])
      case Slot(n) => [n] + Slots(ps[1..])
  }

  /** Every placeholder whose token is a key of `vars` becomes that key's value; the others stay. */
  function Resolve(ps: seq<Piece>, vars: seq<Entry>): (r: seq<Piece>)
    ensures |r| == |ps|
    ensures forall i :: 0 <= i < |ps| ==>
      r[i] == (if ps[i].Slot? && Get(vars, Token(ps[i].name)).Some?
               then Literal(Get(vars, Token(ps[i].name)).value) else ps[i])
  {
    if ps == [] then []
    else
      var p := match ps[0]
        case Slot(n) => (match Get(vars, Token(n)) case Some(v) => Literal(v) case None => ps[0])
        case Literal(_) => ps[0];
      [p] + Resolve(ps[1..], vars)
  }

  lemma IsTokenKeyIsToken(key: string)
    requires IsTokenKey(key)
    ensures key == Token(key[2..|key| - 2])
  {
    var n := key[2..|key| - 2];
    assert key == key[..2] + n + key[|key| - 2..];
  }

  lemma TokenInjective(a: string, b: string)
    requires Token(a) == Token(b)
    ensures a == b
  {
    assert a == Token(a)[2..|a| + 2];
    assert b == Token(b)[2..|b| + 2];
  }

  /** Substituting values free of `{` keeps a template well formed. */
  lemma {:induction false} ResolveKeepsWellFormed(ps: seq<Piece>, vars: seq<Entry>)
    requires WellFormed(ps)
    requires forall i :: 0 <= i < |vars| ==> '{' !in vars[i].1
    ensures WellFormed(Resolve(ps, vars))
  {
    if ps != [] {
      assert WellFormed(ps[1..]) by {
        forall i | 0 <= i < |ps| - 1 ensures ps[1..][i] == ps[i + 1] { }
      }
      ResolveKeepsWellFormed(ps[1..], vars);
      var r := Resolve(ps, vars);
      assert r[1..] == Resolve(ps[1..], vars);
      if ps[0].Slot? && Get(vars, Token(ps[0].name)).Some? {
        var v := Get(vars, Token(ps[0].name)).value;
        var i :| 0 <= i < |vars| && vars[i] == (Token(ps[0].name), v);
      }
    }
  }

  /** With no variables every placeholder stays as it is. */
  lemma {:induction false} ResolveNothing(ps: seq<Piece>)
    ensures Resolve(ps, []) == ps
  {
    if ps != [] {
      ResolveNothing(ps[1..]);
    }
  }
}
