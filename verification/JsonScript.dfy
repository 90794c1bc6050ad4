/** json_script.c: scripts of commands and expressions in JSON, with files that include others. */
module JsonScript {
  import opened Basics

  datatype Json = Str(s: string) | Arr(xs: seq<Json>) | Table(fields: seq<Field>) | Other
  datatype Field = Field(name: string, value: Json)

  datatype Type = Any | IsStr | IsArr | IsTable

  predicate HasType(j: Json, t: Type) {
    match t case Any => true case IsStr => j.Str? case IsArr => j.Arr? case IsTable => j.Table?
  }

  /** What a script runs in: variables, files (each a chain of scripts), and what the callbacks
      of the context answer. */
  datatype Env = Env(
    vars: string -> Option<string>, files: map<string, seq<Json>>,
    regex: (string, string) -> bool, isdir: string -> bool, aborts: seq<Event> -> bool)

  /** What callbacks are told */
  datatype Event = Error(msg: string, context: Json) | Command(name: string, args: seq<Json>)
      | Unknown(name: string, expr: Json)

  /** seqs holds file->seq; entered lists the files run so far. */
  datatype State = State(seqs: map<string, nat>, abort: bool, log: seq<Event>, entered: seq<string>)

  // ----- strings with variables -----

  /** Where the first percent sign is */
  function First(s: string): (k: nat)
    ensures k <= |s| && '%' !in s[..k] && (k < |s| ==> s[k] == '%')
  {
    if s == "" || s[0] == '%' then 0
    else
      var k := 1 + First(s[1..]);
      assert s[..k] == [s[0]] + s[1..][..k - 1];
      k
  }

  /** What a piece between percent signs stands for */
  function Piece(vars: string -> Option<string>, p: string, inVar: bool): string {
    if !inVar then p
    else if p == "" then "%"
    else match vars(p) case None => "" case Some(v) => v
  }

  /** The text, and whether a reference is left open */
  function Eval(vars: string -> Option<string>, s: string, inVar: bool): (string, bool)
    decreases |s|
  {
    var k := First(s);
    if k == |s| then (Piece(vars, s, inVar), inVar)
    else
      var rest := Eval(vars, s[k + 1..], !inVar);
      (Piece(vars, s[..k], inVar) + rest.0, rest.1)
  }

  /** eval_string: the text, or an error if a reference is not closed. */
  method EvalString(vars: string -> Option<string>, pattern: string) returns (ok: bool, text: string)
    ensures (text, !ok) == Eval(vars, pattern, false)
  {
    hide Piece, Eval, First;
    text := "";
    var inVar := false;
    var next := pattern;
    var more := true;
    assert text + Eval(vars, next, inVar).0 == Eval(vars, next, inVar).0;
    while more
      invariant more ==> Ahead(vars, text, next, inVar) == Eval(vars, pattern, false)
      invariant !more ==> (text, inVar) == Eval(vars, pattern, false)
      decreases more, |next|
    {
      var str, curVar := next, inVar;
      var end := First(str);
      EvalAt(vars, str, curVar, end);
      if end < |str| {
        next := str[end + 1..];
        inVar := !inVar;
      } else {
        more := false;
        assert str[..end] == str;
      }
      var piece := Piece(vars, str[..end], curVar);
      AheadMoves(vars, text, piece, next, inVar);
      text := text + piece;
    }
    ok := !inVar;
  }

  /** The text so far and what the rest of the pattern adds to it */
  ghost function Ahead(vars: string -> Option<string>, text: string, next: string, inVar: bool): (string, bool) {
    (text + Eval(vars, next, inVar).0, Eval(vars, next, inVar).1)
  }

  lemma {:induction false} AheadMoves(vars: string -> Option<string>, text: string, piece: string, next: string,
                                      inVar: bool)
    ensures var r := Eval(vars, next, inVar);
            Ahead(vars, text + piece, next, inVar) == (text + (piece + r.0), r.1)
  {
    hide Eval;
    var r := Eval(vars, next, inVar);
    assert text + (piece + r.0) == text + piece + r.0;
  }

  function Doubled(t: string): string {
    if t == "" then "" else (if t[0] == '%' then "%%" else [t[0]]) + Doubled(t[1..])
  }

  lemma {:induction false} FirstIs(s: string, k: nat)
    requires k <= |s| && '%' !in s[..k] && (k < |s| ==> s[k] == '%')
    ensures First(s) == k
  {
    if k > 0 {
      assert s[0] == s[..k][0];
      assert s[1..][..k - 1] == s[..k][1..];
      FirstIs(s[1..], k - 1);
    }
  }

  lemma {:induction false} EvalAt(vars: string -> Option<string>, s: string, inVar: bool, k: nat)
    requires k <= |s| && '%' !in s[..k] && (k < |s| ==> s[k] == '%')
    ensures k == |s| ==> Eval(vars, s, inVar) == (Piece(vars, s, inVar), inVar)
    ensures k < |s| ==> var r := Eval(vars, s[k + 1..], !inVar);
              Eval(vars, s, inVar) == (Piece(vars, s[..k], inVar) + r.0, r.1)
  {
    FirstIs(s, k);
  }

  lemma {:induction false} DoubledSplit(t: string, k: nat)
    requires k <= |t| && '%' !in t[..k]
    ensures Doubled(t) == t[..k] + Doubled(t[k..])
  {
    if k > 0 {
      assert t[..k][0] == t[0];
      assert t[1..][..k - 1] == t[..k][1..];
      DoubledSplit(t[1..], k - 1);
      assert t[1..][k - 1..] == t[k..];
      assert t[..k] == [t[0]] + t[1..][..k - 1];
    } else {
      assert t[k..] == t;
    }
  }

  /** Text with every percent sign doubled stands for itself. */
  lemma {:induction false} EvalDoubled(vars: string -> Option<string>, t: string)
    ensures Eval(vars, Doubled(t), false) == (t, false)
    decreases |t|
  {
    hide Eval, First;
    var k := First(t);
    var d := Doubled(t);
    DoubledSplit(t, k);
    if k == |t| {
      assert t[k..] == "" && t[..k] == t && d == t;
      EvalAt(vars, d, false, k);
    } else {
      var rest := t[k + 1..];
      DoubledPercent(t[k..]);
      assert t[k..][1..] == rest;
      EvalPercent(vars, t[..k], Doubled(rest));
      EvalDoubled(vars, rest);
      assert t == t[..k] + ("%" + rest);
    }
  }

  /** Two percent signs stand for one. */
  lemma {:induction false} EvalPercent(vars: string -> Option<string>, p: string, d: string)
    requires '%' !in p
    ensures var r := Eval(vars, d, false); Eval(vars, p + ("%" + ("%" + d)), false) == (p + ("%" + r.0), r.1)
  {
    hide Eval, First;
    var e := "%" + d;
    var s := p + ("%" + e);
    assert s[..|p|] == p && s[|p| + 1..] == e;
    EvalAt(vars, s, false, |p|);
    assert e[..0] == "" && e[1..] == d;
    EvalAt(vars, e, true, 0);
  }

  lemma {:induction false} DoubledPercent(t: string)
    requires t != "" && t[0] == '%'
    ensures Doubled(t) == "%" + ("%" + Doubled(t[1..]))
  {
    assert "%%" + Doubled(t[1..]) == "%" + ("%" + Doubled(t[1..]));
  }

  /** A variable between percent signs stands for its value, and for nothing if it has none. */
  lemma {:induction false} EvalVariable(vars: string -> Option<string>, p: string, x: string, q: string)
    requires '%' !in p && '%' !in x && x != ""
    ensures var r := Eval(vars, q, false);
            && (vars(x) == None ==> Eval(vars, p + "%" + x + "%" + q, false) == (p + r.0, r.1))
            && forall v :: vars(x) == Some(v) ==> Eval(vars, p + "%" + x + "%" + q, false) == (p + v + r.0, r.1)
  {
    hide Eval, First;
    var r := Eval(vars, q, false);
    var rest := x + "%" + q;
    var s := p + "%" + x + "%" + q;
    assert s[..|p|] == p && s[|p| + 1..] == rest;
    EvalAt(vars, s, false, |p|);
    assert rest[..|x|] == x && rest[|x| + 1..] == q;
    EvalAt(vars, rest, true, |x|);
    assert forall v :: p + (v + r.0) == p + v + r.0;
    assert "" + r.0 == r.0;
  }

  /** Without percent signs nothing is filled in; with a single one there is an error. */
  lemma {:induction false} EvalOpen(vars: string -> Option<string>, p: string, x: string)
    requires '%' !in p && '%' !in x
    ensures Eval(vars, p, false) == (p, false) && Eval(vars, p + "%" + x, false).1
  {
    hide Eval, First;
    assert p[..|p|] == p;
    EvalAt(vars, p, false, |p|);
    var s := p + "%" + x;
    assert s[..|p|] == p && s[|p| + 1..] == x;
    EvalAt(vars, s, false, |p|);
    assert x[..|x|] == x;
    EvalAt(vars, x, true, |x|);
  }

  // ----- expressions: what callbacks are told, and -1 for an error, 0 or 1 -----

  const UNEXPECTED := "Unexpected element type"

  /** blobmsg_parse_array: an element that is not of the type wanted next is skipped. */
  function Parse(policy: seq<Type>, xs: seq<Json>): (tb: seq<Option<Json>>)
    ensures |tb| == |policy|
            && forall m :: 0 <= m < |tb| && tb[m].Some? ==> tb[m].value in xs && HasType(tb[m].value, policy[m])
    decreases |policy| + |xs|
  {
    if policy == [] then []
    else if xs == [] then [None] + Parse(policy[1..], [])
    else if HasType(xs[0], policy[0]) then [Some(xs[0])] + Parse(policy[1..], xs[1..])
    else Parse(policy, xs[1..])
  }

  /** eq_regex_cmp */
  predicate Same(env: Env, v: string, pattern: string, regex: bool) {
    if regex then env.regex(v, pattern) else v == pattern
  }

  function SameAny(env: Env, v: string, xs: seq<Json>, regex: bool): (r: (seq<Event>, int))
    ensures -1 <= r.1 <= 1
  {
    if xs == [] then ([], 0)
    else if !xs[0].Str? then ([Error(UNEXPECTED, xs[0])], -1)
    else if Same(env, v, xs[0].s, regex) then ([], 1)
    else SameAny(env, v, xs[1..], regex)
  }

  function EqRegex(env: Env, xs: seq<Json>, regex: bool): (r: (seq<Event>, int))
    ensures -1 <= r.1 <= 1
  {
    var tb := Parse([IsStr, IsStr, Any], xs);
    if tb[1] == None || tb[2] == None then ([], -1)
    else match env.vars(tb[1].value.s)
      case None => ([], 0)
      case Some(v) =>
        match tb[2].value
        case Str(p) => ([], if Same(env, v, p, regex) then 1 else 0)
        case Arr(ps) => SameAny(env, v, ps, regex)
        case other => ([Error(UNEXPECTED, other)], -1)
  }

  function HasAny(env: Env, xs: seq<Json>): (r: (seq<Event>, int))
    ensures -1 <= r.1 <= 1
  {
    if xs == [] then ([], 0)
    else if !xs[0].Str? then ([Error(UNEXPECTED, xs[0])], -1)
    else if env.vars(xs[0].s).Some? then ([], 1)
    else HasAny(env, xs[1..])
  }

  function Has(env: Env, xs: seq<Json>): (r: (seq<Event>, int))
    ensures -1 <= r.1 <= 1
  {
    var tb := Parse([IsStr, Any, Any], xs);
    if tb[1] == None then ([], -1)
    else match tb[1].value
      case Str(n) => ([], if env.vars(n).Some? then 1 else 0)
      case Arr(ns) => HasAny(env, ns)
      case other => ([Error(UNEXPECTED, other)], -1)
  }

  function IsDir(env: Env, xs: seq<Json>): (r: (seq<Event>, int))
    ensures -1 <= r.1 <= 1
  {
    var tb := Parse([IsStr, IsStr, Any], xs);
    if tb[1] == None then ([], -1)
    else
      var path := Eval(env.vars, tb[1].value.s, false);
      ([], if path.1 then -1 else if env.isdir(path.0) then 1 else 0)
  }

  /** json_process_expr; what handle_expr returns for an unknown expression does not matter. */
  function Expr(env: Env, e: Json): (r: (seq<Event>, int))
    ensures -1 <= r.1 <= 1
    decreases e, 1, 0
  {
    if !e.Arr? || e.xs == [] || !e.xs[0].Str? then ([Error(UNEXPECTED, e)], -1)
    else
      var name := e.xs[0].s;
      if name == "eq" then EqRegex(env, e.xs, false)
      else if name == "regex" then EqRegex(env, e.xs, true)
      else if name == "has" then Has(env, e.xs)
      else if name == "and" then AndOr(env, e, 1, 1)
      else if name == "or" then AndOr(env, e, 1, 0)
      else if name == "not" then Not(env, e)
      else if name == "isdir" then IsDir(env, e.xs)
      else ([Unknown(name, e)], -1)
  }

  /** expr_and_or from element i on; and is 1 or 0. */
  function AndOr(env: Env, e: Json, i: nat, and: int): (r: (seq<Event>, int))
    requires e.Arr? && 0 <= and <= 1
    ensures -1 <= r.1 <= 1
    decreases e, 0, |e.xs| - i
  {
    if i >= |e.xs| then ([], and)
    else
      var x := Expr(env, e.xs[i]);
      if x.1 < 0 || x.1 != and then x
      else
        var rest := AndOr(env, e, i + 1, and);
        (x.0 + rest.0, rest.1)
  }

  function Not(env: Env, e: Json): (r: (seq<Event>, int))
    requires e.Arr?
    ensures -1 <= r.1 <= 1
    decreases e, 0, 0
  {
    var tb := Parse([IsStr, IsArr, Any], e.xs);
    if tb[1] == None then ([], -1)
    else
      var x := Expr(env, tb[1].value);
      if x.1 < 0 then x else (x.0, 1 - x.1)
  }

  /** The first operand at or behind i whose value is not v */
  ghost predicate Decides(env: Env, xs: seq<Json>, i: nat, v: int, k: int) {
    i <= k < |xs| && Expr(env, xs[k]).1 != v && forall j :: i <= j < k ==> Expr(env, xs[j]).1 == v
  }

  lemma {:induction false} AndOrIs(env: Env, e: Json, i: nat, and: int)
    requires e.Arr? && 0 <= and <= 1 && i <= |e.xs|
    ensures AndOr(env, e, i, and).1 == and <==> forall k :: i <= k < |e.xs| ==> Expr(env, e.xs[k]).1 == and
    ensures AndOr(env, e, i, and).1 != and ==>
              exists k :: Decides(env, e.xs, i, and, k) && Expr(env, e.xs[k]).1 == AndOr(env, e, i, and).1
    decreases |e.xs| - i
  {
    hide Expr;
    if i < |e.xs| {
      AndOrIs(env, e, i + 1, and);
      var x := Expr(env, e.xs[i]);
      if x.1 != and {
        assert Decides(env, e.xs, i, and, i);
      } else if AndOr(env, e, i, and).1 != and {
        var k :| Decides(env, e.xs, i + 1, and, k) && Expr(env, e.xs[k]).1 == AndOr(env, e, i + 1, and).1;
        assert Decides(env, e.xs, i, and, k);
      }
    }
  }

  /** "and" is true if all operands are, "or" false if all operands are; otherwise the first operand
      that is not decides, with what it reports or whether it is an error. */
  lemma {:induction false} AndOrAnswers(env: Env, xs: seq<Json>, and: bool)
    ensures var v := if and then 1 else 0;
            var r := Expr(env, Arr([Str(if and then "and" else "or")] + xs)).1;
            && (r == v <==> forall k :: 0 <= k < |xs| ==> Expr(env, xs[k]).1 == v)
            && (r != v ==> exists k :: Decides(env, xs, 0, v, k) && Expr(env, xs[k]).1 == r)
  {
    hide Expr;
    var v := if and then 1 else 0;
    var e := Arr([Str(if and then "and" else "or")] + xs);
    assert Expr(env, e) == AndOr(env, e, 1, v) by { AndOrNamed(env, e, and); }
    AndOrIs(env, e, 1, v);
    assert forall k :: 0 <= k < |xs| ==> xs[k] == e.xs[k + 1];
    if AndOr(env, e, 1, v).1 != v {
      var k :| Decides(env, e.xs, 1, v, k) && Expr(env, e.xs[k]).1 == AndOr(env, e, 1, v).1;
      assert e.xs[k] == xs[k - 1];
      assert Decides(env, xs, 0, v, k - 1);
    } else {
      assert forall k :: 1 <= k < |e.xs| ==> e.xs[k] == xs[k - 1];
    }
  }

  lemma AndOrNamed(env: Env, e: Json, and: bool)
    requires e.Arr? && e.xs != [] && e.xs[0] == Str(if and then "and" else "or")
    ensures Expr(env, e) == AndOr(env, e, 1, if and then 1 else 0)
  {
  }

  function Strs(ps: seq<string>): seq<Json> {
    seq(|ps|, i requires 0 <= i < |ps| => Str(ps[i]))
  }

  lemma {:induction false} ParseThree(t: Type, u: Type, name: string, x: Json, ys: seq<Json>)
    requires HasType(x, t) && |ys| <= 1 && (ys != [] ==> HasType(ys[0], u))
    ensures Parse([IsStr, t, u], [Str(name), x] + ys)
            == [Some(Str(name)), Some(x), if ys == [] then None else Some(ys[0])]
  {
    hide Parse;
    ParseHead(IsStr, [t, u], Str(name), [x] + ys);
    ParseHead(t, [u], x, ys);
    assert [Str(name), x] + ys == [Str(name)] + ([x] + ys) && [IsStr] + [t, u] == [IsStr, t, u] && [t] + [u] == [t, u];
    ParseLast(u, ys);
  }

  lemma {:induction false} ParseLast(u: Type, ys: seq<Json>)
    requires |ys| <= 1 && (ys != [] ==> HasType(ys[0], u))
    ensures Parse([u], ys) == [if ys == [] then None else Some(ys[0])]
  {
    assert [u][1..] == [];
  }

  /** The value of the variable is the pattern, or matches it. */
  ghost predicate Fits(env: Env, v: string, p: string, regex: bool) {
    env.vars(v).Some? && if regex then env.regex(env.vars(v).value, p) else env.vars(v).value == p
  }

  /** Elements up to the first of the type that is wanted next are skipped. */
  lemma {:induction false} ParseFirst(t: Type, policy: seq<Type>, pre: seq<Json>, x: Json, xs: seq<Json>)
    requires HasType(x, t) && forall j :: j in pre ==> !HasType(j, t)
    ensures Parse([t] + policy, pre + [x] + xs) == [Some(x)] + Parse(policy, xs)
    ensures Parse([t] + policy, pre)[0] == None
  {
    if pre == [] {
      ParseHead(t, policy, x, xs);
      assert pre + [x] + xs == [x] + xs;
    } else {
      assert (pre + [x] + xs)[1..] == pre[1..] + [x] + xs && pre[0] in pre;
      assert forall j :: j in pre[1..] ==> j in pre;
      ParseFirst(t, policy, pre[1..], x, xs);
    }
  }

  /** A name that is none of the seven is handed to the callback, and the value is an error. */
  lemma UnknownAnswers(env: Env, name: string, xs: seq<Json>)
    requires name !in {"eq", "regex", "has", "and", "or", "not", "isdir"}
    ensures var e := Arr([Str(name)] + xs); Expr(env, e) == ([Unknown(name, e)], -1)
  {
  }

  lemma {:induction false} SameAnyIs(env: Env, v: string, ps: seq<string>, regex: bool)
    requires env.vars(v).Some?
    ensures SameAny(env, env.vars(v).value, Strs(ps), regex)
            == ([], if exists i :: 0 <= i < |ps| && Fits(env, v, ps[i], regex) then 1 else 0)
  {
    if ps != [] {
      assert Strs(ps)[1..] == Strs(ps[1..]);
      SameAnyIs(env, v, ps[1..], regex);
      assert forall i :: 0 <= i < |ps[1..]| ==> ps[1..][i] == ps[i + 1];
      assert (exists i :: 0 <= i < |ps| && Fits(env, v, ps[i], regex)) <==>
             Fits(env, v, ps[0], regex) || exists i :: 0 <= i < |ps[1..]| && Fits(env, v, ps[1..][i], regex);
    }
  }

  /** A list with something other than a string in it: that is reported if it is reached. */
  lemma {:induction false} SameAnyOdd(env: Env, v: string, ps: seq<string>, x: Json, rest: seq<Json>, regex: bool)
    requires env.vars(v).Some? && !x.Str?
    ensures SameAny(env, env.vars(v).value, Strs(ps) + [x] + rest, regex)
            == if exists i :: 0 <= i < |ps| && Fits(env, v, ps[i], regex) then ([], 1) else ([Error(UNEXPECTED, x)], -1)
  {
    var all := Strs(ps) + [x] + rest;
    if ps != [] {
      assert all[1..] == Strs(ps[1..]) + [x] + rest;
      SameAnyOdd(env, v, ps[1..], x, rest, regex);
      assert forall i :: 0 <= i < |ps[1..]| ==> ps[1..][i] == ps[i + 1];
      assert (exists i :: 0 <= i < |ps| && Fits(env, v, ps[i], regex)) <==>
             Fits(env, v, ps[0], regex) || exists i :: 0 <= i < |ps[1..]| && Fits(env, v, ps[1..][i], regex);
    }
  }

  /** Without their arguments the expressions are errors that nobody is told of. */
  lemma {:induction false} MissingAnswers(env: Env, name: string, v: string)
    ensures name in {"eq", "regex", "has", "isdir", "not"} ==> Expr(env, Arr([Str(name)])) == ([], -1)
    ensures name in {"eq", "regex"} ==> Expr(env, Arr([Str(name), Str(v)])) == ([], -1)
  {
    var none, one := Arr([Str(name)]), Arr([Str(name), Str(v)]);
    forall t, u ensures Parse([IsStr, t, u], none.xs) == [Some(Str(name)), None, None] {
      assert none.xs[1..] == [] && [IsStr, t, u][1..] == [t, u] && [t, u][1..] == [u] && [u][1..] == [];
    }
    assert one.xs == [Str(name), Str(v)] + [];
    ParseThree(IsStr, Any, name, Str(v), []);
  }

  /** "eq" and "regex" with a malformed list, or with something that is neither text nor list */
  lemma {:induction false} EqOdd(env: Env, v: string, ps: seq<string>, x: Json, rest: seq<Json>, regex: bool)
    requires env.vars(v).Some? && !x.Str?
    ensures var name := if regex then "regex" else "eq";
            && Expr(env, Arr([Str(name), Str(v), Arr(Strs(ps) + [x] + rest)]))
               == (if exists i :: 0 <= i < |ps| && Fits(env, v, ps[i], regex) then ([], 1)
                   else ([Error(UNEXPECTED, x)], -1))
            && (!x.Arr? ==> Expr(env, Arr([Str(name), Str(v), x])) == ([Error(UNEXPECTED, x)], -1))
  {
    hide Parse, SameAny, Strs;
    var name := if regex then "regex" else "eq";
    var list := Arr(Strs(ps) + [x] + rest);
    var one, many := Arr([Str(name), Str(v), x]), Arr([Str(name), Str(v), list]);
    assert one.xs == [Str(name), Str(v)] + [x] && many.xs == [Str(name), Str(v)] + [list];
    ParseThree(IsStr, Any, name, Str(v), [x]);
    ParseThree(IsStr, Any, name, Str(v), [list]);
    assert Expr(env, one) == EqRegex(env, one.xs, regex) && Expr(env, many) == EqRegex(env, many.xs, regex);
    SameAnyOdd(env, v, ps, x, rest, regex);
  }

  /** "eq" and "regex" tell whether the variable is set to the text, or to one of several texts, or
      to something that the expression, or one of several, matches. */
  lemma {:induction false} EqAnswers(env: Env, v: string, p: string, ps: seq<string>, regex: bool)
    ensures var name := if regex then "regex" else "eq";
            && Expr(env, Arr([Str(name), Str(v), Str(p)])) == ([], if Fits(env, v, p, regex) then 1 else 0)
            && Expr(env, Arr([Str(name), Str(v), Arr(Strs(ps))]))
               == ([], if exists i :: 0 <= i < |ps| && Fits(env, v, ps[i], regex) then 1 else 0)
  {
    hide Parse, SameAny, Strs;
    var name := if regex then "regex" else "eq";
    var one, many := Arr([Str(name), Str(v), Str(p)]), Arr([Str(name), Str(v), Arr(Strs(ps))]);
    assert one.xs == [Str(name), Str(v)] + [Str(p)] && many.xs == [Str(name), Str(v)] + [Arr(Strs(ps))];
    ParseThree(IsStr, Any, name, Str(v), [Str(p)]);
    ParseThree(IsStr, Any, name, Str(v), [Arr(Strs(ps))]);
    assert Expr(env, one) == EqRegex(env, one.xs, regex) && Expr(env, many) == EqRegex(env, many.xs, regex);
    if env.vars(v).Some? { SameAnyIs(env, v, ps, regex); }
  }

  lemma {:induction false} HasAnyIs(env: Env, ns: seq<string>)
    ensures HasAny(env, Strs(ns)) == ([], if exists i :: 0 <= i < |ns| && env.vars(ns[i]).Some? then 1 else 0)
  {
    if ns != [] {
      assert Strs(ns)[1..] == Strs(ns[1..]);
      HasAnyIs(env, ns[1..]);
      assert forall i :: 0 <= i < |ns[1..]| ==> ns[1..][i] == ns[i + 1];
      assert (exists i :: 0 <= i < |ns| && env.vars(ns[i]).Some?) <==>
             env.vars(ns[0]).Some? || exists i :: 0 <= i < |ns[1..]| && env.vars(ns[1..][i]).Some?;
    }
  }

  lemma {:induction false} HasAnyOdd(env: Env, ns: seq<string>, x: Json, rest: seq<Json>)
    requires !x.Str?
    ensures HasAny(env, Strs(ns) + [x] + rest)
            == if exists i :: 0 <= i < |ns| && env.vars(ns[i]).Some? then ([], 1) else ([Error(UNEXPECTED, x)], -1)
  {
    var all := Strs(ns) + [x] + rest;
    if ns != [] {
      assert all[1..] == Strs(ns[1..]) + [x] + rest;
      HasAnyOdd(env, ns[1..], x, rest);
      assert forall i :: 0 <= i < |ns[1..]| ==> ns[1..][i] == ns[i + 1];
      assert (exists i :: 0 <= i < |ns| && env.vars(ns[i]).Some?) <==>
             env.vars(ns[0]).Some? || exists i :: 0 <= i < |ns[1..]| && env.vars(ns[1..][i]).Some?;
    }
  }

  /** "has" with a malformed list, or with something that is neither name nor list */
  lemma {:induction false} HasOdd(env: Env, ns: seq<string>, x: Json, rest: seq<Json>)
    requires !x.Str?
    ensures Expr(env, Arr([Str("has"), Arr(Strs(ns) + [x] + rest)]))
            == if exists i :: 0 <= i < |ns| && env.vars(ns[i]).Some? then ([], 1) else ([Error(UNEXPECTED, x)], -1)
    ensures !x.Arr? ==> Expr(env, Arr([Str("has"), x])) == ([Error(UNEXPECTED, x)], -1)
  {
    hide Parse, HasAny, Strs;
    var list := Arr(Strs(ns) + [x] + rest);
    var one, many := Arr([Str("has"), x]), Arr([Str("has"), list]);
    assert one.xs == [Str("has"), x] + [] && many.xs == [Str("has"), list] + [];
    ParseThree(Any, Any, "has", x, []);
    ParseThree(Any, Any, "has", list, []);
    assert Expr(env, one) == Has(env, one.xs) && Expr(env, many) == Has(env, many.xs);
    HasAnyOdd(env, ns, x, rest);
  }

  /** "has" tells whether the variable, or one of several, is set. */
  lemma {:induction false} HasAnswers(env: Env, n: string, ns: seq<string>)
    ensures Expr(env, Arr([Str("has"), Str(n)])) == ([], if env.vars(n).Some? then 1 else 0)
    ensures Expr(env, Arr([Str("has"), Arr(Strs(ns))]))
            == ([], if exists i :: 0 <= i < |ns| && env.vars(ns[i]).Some? then 1 else 0)
  {
    hide Parse, HasAny, Strs;
    var one, many := Arr([Str("has"), Str(n)]), Arr([Str("has"), Arr(Strs(ns))]);
    assert one.xs == [Str("has"), Str(n)] + [] && many.xs == [Str("has"), Arr(Strs(ns))] + [];
    ParseThree(Any, Any, "has", Str(n), []);
    ParseThree(Any, Any, "has", Arr(Strs(ns)), []);
    assert Expr(env, one) == Has(env, one.xs) && Expr(env, many) == Has(env, many.xs);
    HasAnyIs(env, ns);
  }

  /** "isdir" asks about the path with variables filled in; an unclosed reference is an error. */
  lemma {:induction false} IsDirAnswers(env: Env, p: string)
    ensures var path := Eval(env.vars, p, false);
            Expr(env, Arr([Str("isdir"), Str(p)])) == ([], if path.1 then -1 else if env.isdir(path.0) then 1 else 0)
  {
    hide Parse, Eval;
    var e := Arr([Str("isdir"), Str(p)]);
    assert e.xs == [Str("isdir"), Str(p)] + [];
    ParseThree(IsStr, Any, "isdir", Str(p), []);
    assert Expr(env, e) == IsDir(env, e.xs);
  }

  function NotOf(x: Json): Json { Arr([Str("not"), x]) }

  function NotAll(xs: seq<Json>): (r: seq<Json>)
    ensures |r| == |xs| && forall i :: 0 <= i < |xs| ==> r[i] == NotOf(xs[i])
  {
    seq(|xs|, i requires 0 <= i < |xs| => NotOf(xs[i]))
  }

  lemma {:induction false} ParseNot(x: Json)
    ensures Parse([IsStr, IsArr, Any], NotOf(x).xs)[1] == if x.Arr? then Some(x) else None
  {
    var xs, policy := NotOf(x).xs, [IsStr, IsArr, Any];
    assert xs[1..] == [x] && policy[1..] == [IsArr, Any];
    assert Parse(policy, xs) == [Some(Str("not"))] + Parse([IsArr, Any], [x]);
    if !x.Arr? {
      assert [x][1..] == [];
      assert Parse([IsArr, Any], [x]) == Parse([IsArr, Any], []);
    }
  }

  lemma {:induction false} NotIs(env: Env, x: Json)
    ensures Expr(env, NotOf(x)).1 == if Expr(env, x).1 < 0 then -1 else 1 - Expr(env, x).1
    ensures x.Arr? ==> Expr(env, NotOf(x)).0 == Expr(env, x).0
  {
    var e := NotOf(x);
    ParseNot(x);
    assert Expr(env, e) == Not(env, e);
  }

  /** An operand that is reached and is not even an array, which "and" reports and "not" does not */
  ghost predicate OddAt(env: Env, xs: seq<Json>, i: nat, k: nat) {
    i <= k < |xs| && !xs[k].Arr? && forall j :: i <= j < k ==> Expr(env, xs[j]).1 == 1
  }

  ghost predicate Odd(env: Env, xs: seq<Json>, i: nat) { exists k: nat :: OddAt(env, xs, i, k) }

  lemma {:induction false} OddNext(env: Env, xs: seq<Json>, i: nat)
    requires i < |xs|
    ensures Odd(env, xs, i) <==> !xs[i].Arr? || (Expr(env, xs[i]).1 == 1 && Odd(env, xs, i + 1))
  {
    hide Expr;
    if Odd(env, xs, i) {
      var k: nat :| OddAt(env, xs, i, k);
      if k > i { assert OddAt(env, xs, i + 1, k); }
    }
    if !xs[i].Arr? {
      assert OddAt(env, xs, i, i);
    } else if Expr(env, xs[i]).1 == 1 && Odd(env, xs, i + 1) {
      var k: nat :| OddAt(env, xs, i + 1, k);
      assert OddAt(env, xs, i, k);
    }
  }

  lemma {:induction false} NoneOdd(env: Env, xs: seq<Json>)
    ensures !Odd(env, xs, |xs|)
  {
  }

  /** Element by element, and of the operands against or of their negations */
  lemma {:induction false} AndOrDual(env: Env, xs: seq<Json>, i: nat)
    requires 1 <= i <= |xs| + 1
    ensures var a := AndOr(env, Arr([Str("and")] + xs), i, 1); var o := AndOr(env, Arr([Str("or")] + NotAll(xs)), i, 0);
      && o.1 == (if a.1 < 0 then -1 else 1 - a.1)
      && (o.0 == a.0 <==> !Odd(env, xs, i - 1))
    decreases |xs| - i
  {
    hide Expr, Odd;
    if i <= |xs| {
      NotIs(env, xs[i - 1]);
      NotArray(env, xs[i - 1]);
      OddNext(env, xs, i - 1);
      AndOrDual(env, xs, i + 1);
      var a, o := AndOr(env, Arr([Str("and")] + xs), i + 1, 1), AndOr(env, Arr([Str("or")] + NotAll(xs)), i + 1, 0);
      Cancel(Expr(env, xs[i - 1]).0, a.0, o.0);
    } else {
      NoneOdd(env, xs);
    }
  }

  lemma {:induction false} Cancel(x: seq<Event>, a: seq<Event>, b: seq<Event>)
    ensures x + a == x + b <==> a == b
  {
    if x + a == x + b {
      assert a == (x + a)[|x|..] && b == (x + b)[|x|..];
    }
  }

  lemma {:induction false} NotArray(env: Env, x: Json)
    ensures !x.Arr? ==> Expr(env, x) == ([Error(UNEXPECTED, x)], -1) && Expr(env, NotOf(x)).0 == []
  {
    ParseNot(x);
    assert Expr(env, NotOf(x)) == Not(env, NotOf(x));
  }

  /** not(and(xs)) is or(not xs), errors included. */
  lemma {:induction false} DeMorgan(env: Env, xs: seq<Json>)
    ensures Expr(env, NotOf(Arr([Str("and")] + xs))).1 == Expr(env, Arr([Str("or")] + NotAll(xs))).1
  {
    NotIs(env, Arr([Str("and")] + xs));
    AndOrDual(env, xs, 1);
  }

  /** The same is reported to callbacks exactly if no operand that is reached is not an array. */
  lemma {:induction false} DeMorganReports(env: Env, xs: seq<Json>)
    ensures Expr(env, NotOf(Arr([Str("and")] + xs))).0 == Expr(env, Arr([Str("or")] + NotAll(xs))).0
      <==> !exists k: nat :: k < |xs| && !xs[k].Arr? && forall j :: 0 <= j < k ==> Expr(env, xs[j]).1 == 1
  {
    NotIs(env, Arr([Str("and")] + xs));
    AndOrDual(env, xs, 1);
    assert Odd(env, xs, 0) <==>
             exists k: nat :: k < |xs| && !xs[k].Arr? && forall j :: 0 <= j < k ==> Expr(env, xs[j]).1 == 1 by {
      hide Expr;
      if k: nat :| k < |xs| && !xs[k].Arr? && forall j :: 0 <= j < k ==> Expr(env, xs[j]).1 == 1 {
        assert OddAt(env, xs, 0, k);
      }
      if Odd(env, xs, 0) {
        var k: nat :| OddAt(env, xs, 0, k);
        assert k < |xs| && !xs[k].Arr? && forall j :: 0 <= j < k ==> Expr(env, xs[j]).1 == 1;
      }
    }
  }

  // ----- commands -----

  predicate Seen(st: State, call: nat, f: string) { f in st.seqs && st.seqs[f] == call }

  ghost function Unseen(env: Env, call: nat, st: State): set<string> { set f | f in env.files && !Seen(st, call, f) }

  /** Files are entered once at most: those entered from a to b are different, and were not seen
      in this run before but are now. */
  ghost predicate Grows(call: nat, a: State, b: State) {
    && a.entered <= b.entered && a.log <= b.log && (a.abort ==> b.abort)
    && (forall f :: Seen(a, call, f) ==> Seen(b, call, f))
    && (forall i :: |a.entered| <= i < |b.entered| ==> !Seen(a, call, b.entered[i]) && Seen(b, call, b.entered[i]))
    && (forall i, j :: |a.entered| <= i < j < |b.entered| ==> b.entered[i] != b.entered[j])
  }

  lemma {:induction false} GrowsTrans(call: nat, a: State, b: State, c: State)
    requires Grows(call, a, b) && Grows(call, b, c)
    ensures Grows(call, a, c)
  {
    assert forall i :: 0 <= i < |b.entered| ==> c.entered[i] == b.entered[i];
  }

  lemma {:induction false} GrowsUnseen(env: Env, call: nat, a: State, b: State)
    requires Grows(call, a, b)
    ensures |Unseen(env, call, b)| <= |Unseen(env, call, a)|
  {
    Subset(Unseen(env, call, b), Unseen(env, call, a));
  }

  lemma {:induction false} Subset(a: set<string>, b: set<string>)
    requires a <= b
    ensures |a| <= |b|
  {
    if a != {} {
      var x :| x in a;
      Subset(a - {x}, b - {x});
    }
  }

  /** Callbacks are called, any of which may abort the run. */
  function Told(env: Env, st: State, evs: seq<Event>): State {
    st.(log := st.log + evs, abort := st.abort || (evs != [] && env.aborts(st.log + evs)))
  }

  /** cmd_process_strings from element i on: the arguments with variables filled in */
  function Args(env: Env, xs: seq<Json>, i: nat): Option<seq<Json>>
    decreases |xs| - i
  {
    if i >= |xs| then Some([])
    else if xs[i].Str? && Eval(env.vars, xs[i].s, false).1 then None
    else
      var x := if xs[i].Str? then Str(Eval(env.vars, xs[i].s, false).0) else xs[i];
      match Args(env, xs, i + 1)
      case None => None
      case Some(rest) => Some([x] + rest)
  }

  /** The first entry of a table with this name */
  function Select(fields: seq<Field>, name: string): (r: Option<Json>)
    ensures r.Some? ==> exists i :: 0 <= i < |fields| && fields[i].value == r.value
  {
    if fields == [] then None
    else if fields[0].name == name then Some(fields[0].value)
    else
      var rest := fields[1..];
      assert forall i :: 0 <= i < |rest| ==> rest[i] == fields[i + 1];
      Select(rest, name)
  }

  /** __json_script_run */
  function Run(env: Env, call: nat, st: State, f: string, context: Option<Json>): (r: State)
    requires f in env.files
    ensures Grows(call, st, r)
    decreases |Unseen(env, call, st)|, 0, Other, 0, 0
  {
    if Seen(st, call, f) then (if context.Some? then Told(env, st, [Error("Recursive include", context.value)]) else st)
    else
      var now := st.(seqs := st.seqs[f := call], entered := st.entered + [f]);
      assert Grows(call, st, now);
      GrowsUnseen(env, call, st, now);
      Entering(env, call, st, f);
      var r := Chain(env, call, now, env.files[f], 0);
      GrowsTrans(call, st, now, r);
      r
  }

  lemma {:induction false} Entering(env: Env, call: nat, st: State, f: string)
    requires f in env.files && !Seen(st, call, f)
    ensures |Unseen(env, call, st.(seqs := st.seqs[f := call], entered := st.entered + [f]))| < |Unseen(env, call, st)|
  {
    var now := st.(seqs := st.seqs[f := call], entered := st.entered + [f]);
    Subset(Unseen(env, call, now), Unseen(env, call, st) - {f});
  }

  /** The scripts of a file one after the other, whatever each of them returns */
  function Chain(env: Env, call: nat, st: State, scripts: seq<Json>, i: nat): (r: State)
    ensures Grows(call, st, r)
    decreases |Unseen(env, call, st)|, 1, Arr(scripts), 3, |scripts| - i
  {
    if i >= |scripts| then st
    else
      var x := Cmd(env, call, st, scripts[i]);
      GrowsUnseen(env, call, st, x.0);
      var r := Chain(env, call, x.0, scripts, i + 1);
      GrowsTrans(call, st, x.0, r);
      r
  }

  /** json_process_cmd: 0, -1 for an error, -2 for a return */
  function Cmd(env: Env, call: nat, st: State, block: Json): (r: (State, int))
    ensures Grows(call, st, r.0) && -2 <= r.1 <= 0
    decreases |Unseen(env, call, st)|, 1, block, 2, 0
  {
    if !block.Arr? then (Told(env, st, [Error(UNEXPECTED, block)]), -1)
    else CmdFrom(env, call, st, block, 0)
  }

  /** Its loop from element i on */
  function CmdFrom(env: Env, call: nat, st: State, block: Json, i: nat): (r: (State, int))
    requires block.Arr?
    ensures Grows(call, st, r.0) && -2 <= r.1 <= 0
    decreases |Unseen(env, call, st)|, 1, block, 1, |block.xs| - i
  {
    if i >= |block.xs| || st.abort then (st, 0)
    else if block.xs[i].Str? && i == 0 then One(env, call, st, block)
    else
      var x := Cmd(env, call, st, block.xs[i]);
      if x.1 < -1 then x
      else
        GrowsUnseen(env, call, st, x.0);
        var r := CmdFrom(env, call, x.0, block, i + 1);
        GrowsTrans(call, st, x.0, r.0);
        r
  }

  /** __json_process_cmd: a single command */
  function One(env: Env, call: nat, st: State, block: Json): (r: (State, int))
    requires block.Arr? && block.xs != [] && block.xs[0].Str?
    ensures Grows(call, st, r.0) && -2 <= r.1 <= 0
    decreases |Unseen(env, call, st)|, 1, block, 0, 0
  {
    var name := block.xs[0].s;
    if name == "if" then If(env, call, st, block)
    else if name == "case" then Case(env, call, st, block)
    else if name == "return" then (st, -2)
    else if name == "include" then
      var tb := Parse([IsStr, IsStr, Any], block.xs);
      if tb[1] == None || tb[1].value.s !in env.files then (st, 0)
      else (Run(env, call, st, tb[1].value.s, Some(block)), 0)
    else
      match Args(env, block.xs, 1)
      case None => (Told(env, st, [Error("Unterminated variable reference in string", block)]), -1)
      case Some(args) => (Told(env, st, [Command(name, args)]), 0)
  }

  function If(env: Env, call: nat, st: State, block: Json): (r: (State, int))
    requires block.Arr?
    ensures Grows(call, st, r.0) && -2 <= r.1 <= 0
    decreases |Unseen(env, call, st)|, 1, block, -1, 0
  {
    var tb := Parse([IsStr, IsArr, IsArr, IsArr], block.xs);
    if tb[1] == None || tb[2] == None then (st, 0)
    else
      var x := Expr(env, tb[1].value);
      var told := Told(env, st, x.0);
      GrowsUnseen(env, call, st, told);
      var r :=
        if x.1 < 0 then (told, 0)
        else if x.1 > 0 then Cmd(env, call, told, tb[2].value)
        else if tb[3] == None then (told, 0)
        else Cmd(env, call, told, tb[3].value);
      GrowsTrans(call, st, told, r.0);
      r
  }

  function Case(env: Env, call: nat, st: State, block: Json): (r: (State, int))
    requires block.Arr?
    ensures Grows(call, st, r.0) && -2 <= r.1 <= 0
    decreases |Unseen(env, call, st)|, 1, block, -1, 0
  {
    var tb := Parse([IsStr, IsStr, IsTable], block.xs);
    if tb[1] == None || tb[2] == None then (st, 0)
    else match env.vars(tb[1].value.s)
      case None => (st, 0)
      case Some(v) =>
        match Select(tb[2].value.fields, v)
        case None => (st, 0)
        case Some(cur) => Cmd(env, call, st, cur)
  }

  // ----- what runs are like -----

  /** A run ends although files may include each other in a circle: the functions above are
      total. In the run each file is entered once at most, and in particular not again from
      inside itself. */
  lemma {:induction false} EnteredOnce(env: Env, call: nat, st: State, f: string)
    requires f in env.files
    ensures var r := Run(env, call, st, f, None);
      && st.entered <= r.entered
      && (forall i, j :: |st.entered| <= i < j < |r.entered| ==> r.entered[i] != r.entered[j])
      && (forall i :: |st.entered| <= i < |r.entered| ==> !Seen(st, call, r.entered[i]))
      && (!Seen(st, call, f) ==> |r.entered| > |st.entered| && r.entered[|st.entered|] == f)
  {
    var r := Run(env, call, st, f, None);
    if !Seen(st, call, f) {
      var now := st.(seqs := st.seqs[f := call], entered := st.entered + [f]);
      assert r == Chain(env, call, now, env.files[f], 0);
      assert now.entered <= r.entered;
      assert r.entered[|st.entered|] == now.entered[|st.entered|];
    }
  }

  function IfOf(c: Json, a: seq<Json>, els: Option<seq<Json>>): Json {
    Arr([Str("if"), c, Arr(a)] + if els == None then [] else [Arr(els.value)])
  }

  /** A true condition runs exactly the first branch, a false one exactly the second if there is
      one, and one with an error none; what the condition reports is reported before. */
  lemma {:induction false} IfBranches(env: Env, call: nat, st: State, c: Json, a: seq<Json>, els: Option<seq<Json>>)
    requires c.Arr?
    ensures var x := Expr(env, c); var told := Told(env, st, x.0);
      && (x.1 < 0 ==> One(env, call, st, IfOf(c, a, els)) == (told, 0))
      && (x.1 == 1 ==> One(env, call, st, IfOf(c, a, els)) == Cmd(env, call, told, Arr(a)))
      && (x.1 == 0 && els == None ==> One(env, call, st, IfOf(c, a, els)) == (told, 0))
      && (x.1 == 0 && els != None ==> One(env, call, st, IfOf(c, a, els)) == Cmd(env, call, told, Arr(els.value)))
  {
    hide Grows, Unseen, Cmd, Parse, Expr, Told;
    var block := IfOf(c, a, els);
    assert block.xs[0] == Str("if");
    ParseIf(c, a, els);
    assert One(env, call, st, block) == If(env, call, st, block);
  }

  lemma {:induction false} ParseIf(c: Json, a: seq<Json>, els: Option<seq<Json>>)
    requires c.Arr?
    ensures Parse([IsStr, IsArr, IsArr, IsArr], IfOf(c, a, els).xs)
      == [Some(Str("if")), Some(c), Some(Arr(a)), if els == None then None else Some(Arr(els.value))]
  {
    hide Parse;
    var last := if els == None then [] else [Arr(els.value)];
    ParseHead(IsStr, [IsArr, IsArr, IsArr], Str("if"), [c, Arr(a)] + last);
    ParseHead(IsArr, [IsArr, IsArr], c, [Arr(a)] + last);
    ParseHead(IsArr, [IsArr], Arr(a), last);
    ParseNone();
    if els != None { ParseHead(IsArr, [], Arr(els.value), []); }
    assert IfOf(c, a, els).xs == [Str("if")] + ([c, Arr(a)] + last) && [c, Arr(a)] + last == [c] + ([Arr(a)] + last);
    assert [IsStr] + [IsArr, IsArr, IsArr] == [IsStr, IsArr, IsArr, IsArr];
    assert [IsArr] + [IsArr, IsArr] == [IsArr, IsArr, IsArr] && [IsArr] + [IsArr] == [IsArr, IsArr]
           && [IsArr] + [] == [IsArr];
    assert els != None ==> last == [Arr(els.value)] + [];
  }

  lemma {:induction false} ParseHead(t: Type, policy: seq<Type>, x: Json, xs: seq<Json>)
    requires HasType(x, t)
    ensures Parse([t] + policy, [x] + xs) == [Some(x)] + Parse(policy, xs)
  {
    assert ([t] + policy)[1..] == policy && ([x] + xs)[1..] == xs;
  }

  lemma {:induction false} ParseNone()
    ensures Parse([], []) == [] && Parse([IsArr], []) == [None]
  {
    assert [IsArr][1..] == [];
  }

  ghost predicate Unclosed(env: Env, x: Json) { x.Str? && Eval(env.vars, x.s, false).1 }

  /** Strings with their variables filled in, everything else as it is */
  ghost function FilledIn(env: Env, xs: seq<Json>): (args: seq<Json>)
    ensures |args| == |xs|
    ensures forall i :: 0 <= i < |xs| ==>
              args[i] == if xs[i].Str? then Str(Eval(env.vars, xs[i].s, false).0) else xs[i]
  {
    seq(|xs|, i requires 0 <= i < |xs| => if xs[i].Str? then Str(Eval(env.vars, xs[i].s, false).0) else xs[i])
  }

  lemma {:induction false} ArgsAre(env: Env, xs: seq<Json>, i: nat)
    requires i <= |xs|
    ensures Args(env, xs, i)
            == if exists k :: i <= k < |xs| && Unclosed(env, xs[k]) then None else Some(FilledIn(env, xs[i..]))
    decreases |xs| - i
  {
    hide Eval;
    if i < |xs| {
      ArgsAre(env, xs, i + 1);
      assert FilledIn(env, xs[i..]) == [FilledIn(env, xs[i..])[0]] + FilledIn(env, xs[i + 1..]);
    } else {
      assert FilledIn(env, xs[i..]) == [];
    }
  }

  /** Every other command is handed to the callback with its arguments filled in, unless a reference
      in one of them is not closed. */
  lemma {:induction false} CommandRuns(env: Env, call: nat, st: State, name: string, xs: seq<Json>)
    requires name !in {"if", "case", "return", "include"}
    ensures var block := Arr([Str(name)] + xs); var r := One(env, call, st, block);
            var bad := exists x :: x in xs && Unclosed(env, x);
            var log := st.log + [if bad then Error("Unterminated variable reference in string", block)
                                 else Command(name, FilledIn(env, xs))];
            r == (st.(log := log, abort := st.abort || env.aborts(log)), if bad then -1 else 0)
  {
    hide Grows, Unseen, Args, Unclosed, FilledIn;
    CommandArgs(env, name, xs);
  }

  lemma {:induction false} CommandArgs(env: Env, name: string, xs: seq<Json>)
    ensures Args(env, [Str(name)] + xs, 1)
            == if exists x :: x in xs && Unclosed(env, x) then None else Some(FilledIn(env, xs))
  {
    hide Args, Unclosed, FilledIn;
    var all := [Str(name)] + xs;
    assert all[1..] == xs;
    ArgsAre(env, all, 1);
    assert (exists k :: 1 <= k < |all| && Unclosed(env, all[k])) <==> exists x :: x in xs && Unclosed(env, x) by {
      if x :| x in xs && Unclosed(env, x) {
        var k :| 0 <= k < |xs| && xs[k] == x;
        assert all[k + 1] == x;
      }
      if k :| 1 <= k < |all| && Unclosed(env, all[k]) {
        assert all[k] == xs[k - 1];
      }
    }
  }

  /** A file that is entered already is only reported. */
  lemma {:induction false} NotEnteredAgain(env: Env, call: nat, st: State, f: string)
    requires f in env.files && Seen(st, call, f)
    ensures var inc := Arr([Str("include"), Str(f)]);
            One(env, call, st, inc) == (Told(env, st, [Error("Recursive include", inc)]), 0)
  {
    hide Grows, Unseen, Told, Chain, Parse;
    var inc := Arr([Str("include"), Str(f)]);
    assert inc.xs == [Str("include"), Str(f)] + [];
    ParseThree(IsStr, Any, "include", Str(f), []);
  }

  /** What follows a return in a block has no effect. */
  lemma {:induction false} DeadCode(env: Env, call: nat, st: State, xs: seq<Json>, post: seq<Json>, i: nat)
    requires (i == 0 ==> xs != [] && !xs[0].Str?) && CmdFrom(env, call, st, Arr(xs), i).1 == -2
    ensures CmdFrom(env, call, st, Arr(xs + post), i) == CmdFrom(env, call, st, Arr(xs), i)
    decreases |xs| - i
  {
    hide Grows, Unseen;
    if i < |xs| && !st.abort {
      var x := Cmd(env, call, st, xs[i]);
      assert (xs + post)[i] == xs[i];
      if x.1 >= -1 {
        DeadCode(env, call, x.0, xs, post, i + 1);
      }
    }
  }

  /** If none of the first commands of a block returns or aborts, then the block goes on behind them
      in the state they leave, whatever errors there were. */
  lemma {:induction false} BlockGoesOn(env: Env, call: nat, st: State, xs: seq<Json>, post: seq<Json>, i: nat)
    requires i <= |xs| && (i == 0 ==> xs != [] && !xs[0].Str?)
    requires var r := CmdFrom(env, call, st, Arr(xs), i); r.1 != -2 && !r.0.abort
    ensures var r := CmdFrom(env, call, st, Arr(xs), i);
            r.1 == 0 && CmdFrom(env, call, st, Arr(xs + post), i) == CmdFrom(env, call, r.0, Arr(xs + post), |xs|)
    decreases |xs| - i
  {
    hide Unseen, Grows, One;
    if i < |xs| {
      assert !st.abort by { Aborted(env, call, st, Arr(xs), i); }
      var x := Cmd(env, call, st, xs[i]);
      assert (xs + post)[i] == xs[i];
      BlockGoesOn(env, call, x.0, xs, post, i + 1);
    }
  }

  /** Once a callback has aborted the run, blocks do nothing. */
  lemma Aborted(env: Env, call: nat, st: State, block: Json, i: nat)
    requires block.Arr?
    ensures st.abort ==> CmdFrom(env, call, st, block, i) == (st, 0)
  {
    hide Unseen, Grows, One;
  }

  /** A place in a script: inside a block with commands before and behind it, inside a branch of an
      "if", or inside an entry of a "case". */
  datatype Place =
    | Here
    | InBlock(pre: seq<Json>, place: Place, post: seq<Json>)
    | InThen(cond: Json, place: Place, els: Option<seq<Json>>)
    | InElse(cond: Json, thn: seq<Json>, place: Place)
    | InCase(variable: string, before: seq<Field>, name: string, place: Place, after: seq<Field>)

  /** The script with commands xs at that place */
  function Put(p: Place, xs: seq<Json>): (j: Json)
    ensures j.Arr?
  {
    match p
    case Here => Arr(xs)
    case InBlock(pre, q, post) => Arr(pre + [Put(q, xs)] + post)
    case InThen(c, q, els) => IfOf(c, Put(q, xs).xs, els)
    case InElse(c, thn, q) => IfOf(c, thn, Some(Put(q, xs).xs))
    case InCase(v, before, name, q, after) =>
      Arr([Str("case"), Str(v), Table(before + [Field(name, Put(q, xs))] + after)])
  }

  /** The state after the commands of a block, if none of them returns or aborts */
  ghost function Through(env: Env, call: nat, st: State, pre: seq<Json>, i: nat): Option<State>
    requires i <= |pre|
    decreases |pre| - i
  {
    if st.abort then None
    else if i == |pre| then Some(st)
    else
      var x := Cmd(env, call, st, pre[i]);
      if x.1 < -1 then None else Through(env, call, x.0, pre, i + 1)
  }

  /** The state in which control comes to a place, if it does */
  ghost function Reach(env: Env, call: nat, st: State, p: Place): Option<State>
    decreases p
  {
    match p
    case Here => Some(st)
    case InBlock(pre, q, _) =>
      if pre != [] && pre[0].Str? then None
      else
        var s := Through(env, call, st, pre, 0);
        if s == None then None else Reach(env, call, s.value, q)
    case InThen(c, q, _) =>
      if st.abort || !c.Arr? || Expr(env, c).1 != 1 then None else Reach(env, call, Told(env, st, Expr(env, c).0), q)
    case InElse(c, _, q) =>
      if st.abort || !c.Arr? || Expr(env, c).1 != 0 then None else Reach(env, call, Told(env, st, Expr(env, c).0), q)
    case InCase(v, before, name, q, _) =>
      if st.abort || env.vars(v) != Some(name) || (exists f :: f in before && f.name == name) then None
      else Reach(env, call, st, q)
  }

  /** A return leaves all the blocks around it: if control comes to a place and what is there
      returns, then nothing else of the script has any effect, whatever stands behind it on any
      level, in other branches, or in other entries. */
  lemma {:induction false} ReturnLeavesAll(env: Env, call: nat, st: State, p: Place, xs: seq<Json>)
    requires Reach(env, call, st, p).Some? && Cmd(env, call, Reach(env, call, st, p).value, Arr(xs)).1 == -2
    ensures Cmd(env, call, st, Put(p, xs)) == Cmd(env, call, Reach(env, call, st, p).value, Arr(xs))
    decreases p
  {
    hide Grows, Unseen, Expr, Cmd, Through, Told, Parse;
    match p
    case Here =>
    case InBlock(pre, q, post) =>
      var s := Through(env, call, st, pre, 0).value;
      ReturnLeavesAll(env, call, s, q, xs);
      BlockGoesTo(env, call, st, pre, 0, Put(q, xs), post);
    case InThen(c, q, els) =>
      ReturnLeavesAll(env, call, Told(env, st, Expr(env, c).0), q, xs);
      IfBranches(env, call, st, c, Put(q, xs).xs, els);
      SingleCommand(env, call, st, Put(p, xs));
    case InElse(c, thn, q) =>
      ReturnLeavesAll(env, call, Told(env, st, Expr(env, c).0), q, xs);
      IfBranches(env, call, st, c, thn, Some(Put(q, xs).xs));
      SingleCommand(env, call, st, Put(p, xs));
    case InCase(v, before, name, q, after) =>
      ReturnLeavesAll(env, call, st, q, xs);
      CaseSelects(env, call, st, v, before, name, Put(q, xs), after);
      SingleCommand(env, call, st, Put(p, xs));
  }

  lemma {:induction false} SingleCommand(env: Env, call: nat, st: State, block: Json)
    requires block.Arr? && block.xs != [] && block.xs[0].Str? && !st.abort
    ensures Cmd(env, call, st, block) == One(env, call, st, block)
  {
    hide Grows, Unseen, One;
  }

  lemma {:induction false} BlockGoesTo(env: Env, call: nat, st: State, pre: seq<Json>, i: nat, x: Json, post: seq<Json>)
    requires i <= |pre| && x.Arr? && (i == 0 && pre != [] ==> !pre[0].Str?) && Through(env, call, st, pre, i).Some?
    requires Cmd(env, call, Through(env, call, st, pre, i).value, x).1 == -2
    ensures CmdFrom(env, call, st, Arr(pre + [x] + post), i) == Cmd(env, call, Through(env, call, st, pre, i).value, x)
    ensures i == 0 ==>
              Cmd(env, call, st, Arr(pre + [x] + post)) == Cmd(env, call, Through(env, call, st, pre, i).value, x)
    decreases |pre| - i
  {
    hide Grows, Unseen, One;
    var all := pre + [x] + post;
    if i < |pre| {
      assert all[i] == pre[i];
      BlockGoesTo(env, call, Cmd(env, call, st, pre[i]).0, pre, i + 1, x, post);
    } else {
      assert all[i] == x;
    }
  }

  lemma {:induction false} SelectFirst(before: seq<Field>, name: string, x: Json, after: seq<Field>)
    requires !exists f :: f in before && f.name == name
    ensures Select(before + [Field(name, x)] + after, name) == Some(x)
  {
    var all := before + [Field(name, x)] + after;
    if before != [] {
      assert before[0] in before;
      assert all[1..] == before[1..] + [Field(name, x)] + after;
      assert forall f :: f in before[1..] ==> f in before;
      SelectFirst(before[1..], name, x, after);
    }
  }

  /** "case" runs exactly the first entry that is named like the value of the variable. */
  lemma {:induction false} CaseSelects(env: Env, call: nat, st: State, v: string, before: seq<Field>, name: string,
                                       x: Json, after: seq<Field>)
    requires env.vars(v) == Some(name) && !exists f :: f in before && f.name == name
    ensures One(env, call, st, Arr([Str("case"), Str(v), Table(before + [Field(name, x)] + after)])) ==
              Cmd(env, call, st, x)
  {
    hide Grows, Unseen, Cmd, Select;
    var t := Table(before + [Field(name, x)] + after);
    var block := Arr([Str("case"), Str(v), t]);
    SelectFirst(before, name, x, after);
    ParseCase(v, t);
    assert One(env, call, st, block) == Case(env, call, st, block);
  }

  lemma {:induction false} SelectNone(fields: seq<Field>, name: string)
    requires !exists f :: f in fields && f.name == name
    ensures Select(fields, name) == None
  {
    if fields != [] {
      assert fields[0] in fields;
      assert forall f :: f in fields[1..] ==> f in fields;
      SelectNone(fields[1..], name);
    }
  }

  /** Without a value, or without an entry for it, "case" does nothing. */
  lemma {:induction false} CaseSkips(env: Env, call: nat, st: State, v: string, fields: seq<Field>)
    requires env.vars(v) == None || !exists f :: f in fields && f.name == env.vars(v).value
    ensures One(env, call, st, Arr([Str("case"), Str(v), Table(fields)])) == (st, 0)
  {
    hide Grows, Unseen, Cmd, Select;
    var block := Arr([Str("case"), Str(v), Table(fields)]);
    if env.vars(v).Some? { SelectNone(fields, env.vars(v).value); }
    ParseCase(v, Table(fields));
    assert One(env, call, st, block) == Case(env, call, st, block);
  }

  lemma {:induction false} ParseCase(v: string, t: Json)
    requires t.Table?
    ensures Parse([IsStr, IsStr, IsTable], [Str("case"), Str(v), t]) == [Some(Str("case")), Some(Str(v)), Some(t)]
  {
    hide Parse;
    ParseHead(IsStr, [IsStr, IsTable], Str("case"), [Str(v), t]);
    ParseHead(IsStr, [IsTable], Str(v), [t]);
    ParseHead(IsTable, [], t, []);
    ParseNone();
    assert [Str("case")] + [Str(v), t] == [Str("case"), Str(v), t] && [Str(v)] + [t] == [Str(v), t] && [t] + [] == [t];
    assert [IsStr] + [IsStr, IsTable] == [IsStr, IsStr, IsTable] && [IsStr] + [IsTable] == [IsStr, IsTable];
    assert [IsTable] + [] == [IsTable];
  }

  /** A return command somewhere in a script */
  ghost predicate Mentions(j: Json) {
    match j
    case Arr(xs) => (xs != [] && xs[0] == Str("return")) || exists i :: 0 <= i < |xs| && Mentions(xs[i])
    case Table(fields) => exists i :: 0 <= i < |fields| && Mentions(fields[i].value)
    case _ => false
  }

  lemma {:induction false} MentionsNot(xs: seq<Json>, x: Json)
    requires !Mentions(Arr(xs)) && x in xs
    ensures !Mentions(x)
  {
    var i :| 0 <= i < |xs| && xs[i] == x;
  }

  /** A return leaves its own file only: a script without one does not return, whatever the files
      it includes do. */
  lemma {:induction false} ReturnStays(env: Env, call: nat, st: State, block: Json)
    requires !Mentions(block)
    ensures Cmd(env, call, st, block).1 >= -1
    decreases block, 2, 0
  {
    hide Grows, Unseen, Mentions;
    if block.Arr? {
      ReturnStaysFrom(env, call, st, block, 0);
    }
  }

  lemma {:induction false} ReturnStaysFrom(env: Env, call: nat, st: State, block: Json, i: nat)
    requires block.Arr? && !Mentions(block)
    ensures CmdFrom(env, call, st, block, i).1 >= -1
    decreases block, 1, |block.xs| - i
  {
    hide Grows, Unseen;
    if i < |block.xs| && !st.abort {
      if block.xs[i].Str? && i == 0 {
        ReturnStaysOne(env, call, st, block);
      } else {
        ReturnStays(env, call, st, block.xs[i]);
        ReturnStaysFrom(env, call, Cmd(env, call, st, block.xs[i]).0, block, i + 1);
      }
    }
  }

  lemma {:induction false} ReturnStaysOne(env: Env, call: nat, st: State, block: Json)
    requires block.Arr? && block.xs != [] && block.xs[0].Str? && !Mentions(block)
    ensures One(env, call, st, block).1 >= -1
    decreases block, 0, 0
  {
    hide Grows, Unseen;
    var name := block.xs[0].s;
    if name == "if" {
      var tb := Parse([IsStr, IsArr, IsArr, IsArr], block.xs);
      if tb[1].Some? && tb[2].Some? {
        var told := Told(env, st, Expr(env, tb[1].value).0);
        MentionsNot(block.xs, tb[2].value);
        ReturnStays(env, call, told, tb[2].value);
        if tb[3].Some? {
          MentionsNot(block.xs, tb[3].value);
          ReturnStays(env, call, told, tb[3].value);
        }
      }
    } else if name == "case" {
      var tb := Parse([IsStr, IsStr, IsTable], block.xs);
      if tb[1].Some? && tb[2].Some? && env.vars(tb[1].value.s).Some? {
        var t := tb[2].value;
        var sel := Select(t.fields, env.vars(tb[1].value.s).value);
        if sel.Some? {
          MentionsNot(block.xs, t);
          var k :| 0 <= k < |t.fields| && t.fields[k].value == sel.value;
          ReturnStays(env, call, st, t.fields[k].value);
        }
      }
    }
  }

  /** Behind an include the including block goes on, whether the file returned or not. */
  lemma {:induction false} IncludeGoesOn(env: Env, call: nat, st: State, f: string, rest: seq<Json>)
    requires f in env.files && !st.abort
    ensures var inc := Arr([Str("include"), Str(f)]);
      CmdFrom(env, call, st, Arr([inc] + rest), 0) ==
        CmdFrom(env, call, Run(env, call, st, f, Some(inc)), Arr([inc] + rest), 1)
  {
    hide Grows, Unseen, Run, Chain, Told;
    var inc := Arr([Str("include"), Str(f)]);
    assert Parse([IsStr, IsStr, Any], inc.xs)[1] == Some(Str(f)) by {
      assert inc.xs[1..] == [Str(f)] && [IsStr, IsStr, Any][1..] == [IsStr, Any];
      assert Parse([IsStr, IsStr, Any], inc.xs) == [Some(Str("include"))] + Parse([IsStr, Any], [Str(f)]);
    }
    assert One(env, call, st, inc) == (Run(env, call, st, f, Some(inc)), 0);
    assert CmdFrom(env, call, st, inc, 0) == One(env, call, st, inc);
    assert Cmd(env, call, st, inc) == One(env, call, st, inc);
    assert ([inc] + rest)[0] == inc;
  }

  /** A return in one script of a file does not keep the next of its scripts from running. */
  lemma {:induction false} ChainGoesOn(env: Env, call: nat, st: State, scripts: seq<Json>, post: seq<Json>, i: nat)
    requires i <= |scripts|
    ensures Chain(env, call, st, scripts + post, i) ==
              Chain(env, call, Chain(env, call, st, scripts, i), scripts + post, |scripts|)
    decreases |scripts| - i
  {
    hide Grows, Unseen;
    if i < |scripts| {
      assert (scripts + post)[i] == scripts[i];
      ChainGoesOn(env, call, Cmd(env, call, st, scripts[i]).0, scripts, post, i + 1);
    }
  }

  /** All the scripts of a file are run, each in the state that those before it leave. */
  lemma {:induction false} ScriptsInTurn(env: Env, call: nat, st: State, scripts: seq<Json>, x: Json)
    ensures Chain(env, call, st, [], 0) == st
    ensures Chain(env, call, st, scripts + [x], 0) == Cmd(env, call, Chain(env, call, st, scripts, 0), x).0
  {
    hide Grows, Unseen, Cmd;
    ChainGoesOn(env, call, st, scripts, [x], 0);
    assert (scripts + [x])[|scripts|] == x;
  }

  /** What is not even an array is reported where a block is expected. */
  lemma NotABlock(env: Env, call: nat, st: State, x: Json)
    requires !x.Arr?
    ensures var log := st.log + [Error("Unexpected element type", x)];
            Cmd(env, call, st, x) == (st.(log := log, abort := st.abort || env.aborts(log)), -1)
  {
    hide Grows, Unseen;
  }
}
