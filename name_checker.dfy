/**
 * The static name checker run before a program is executed: an AST visitor
 * that keeps one flat set of the names it has seen bound and appends a
 * finding for every name read that is neither bound so far nor a builtin.
 *
 * The Python AST is cut down to the node kinds the checker treats
 * specially; every other node is `Generic`, with its child nodes in the
 * order of its fields, which is the order `generic_visit` visits them in.
 */
module NameCheck {
  import opened Wrappers
  import opened Chars

  /** The context of a `Name` node. */
  datatype Ctx = Load | Store | Del

  /** An `alias` of an import: `import name as asname`. */
  datatype Alias = Alias(name: string, asname: Option<string>)

  /** The three comprehensions with one element expression. */
  datatype CompKind = ListComp | SetComp | GeneratorExp

  datatype Node =
    | Module(body: seq<Node>)
      /** `def name(params): ...`; `children` are the nodes `generic_visit` reaches: annotations, defaults, body, decorators. */
    | FunctionDef(name: string, params: seq<string>, children: seq<Node>)
      /** `class name: ...`; `children` are the bases, keywords, body and decorators. */
    | ClassDef(name: string, children: seq<Node>)
    | Import(names: seq<Alias>)
    | ImportFrom(names: seq<Alias>)
    | Name(id: string, ctx: Ctx, line: nat, col: nat)
      /** A `comprehension` clause: `for target in iter if ...`. */
    | Comprehension(target: Node, iter: Node, ifs: seq<Node>)
    | Comp(kind: CompKind, generators: seq<Node>, elt: Node)
    | DictComp(generators: seq<Node>, key: Node, value: Node)
    | Generic(children: seq<Node>)

  /** One entry of `errors`: the name, its line and its column offset. */
  datatype Finding = Finding(id: string, line: nat, col: nat)

  /** What the checker has gathered: `defined_names` and `errors`. */
  datatype Checked = Checked(defined: set<string>, errors: seq<Finding>)

  /** The first dotted segment of a module name: `name.split('.')[0]`. */
  function FirstSegment(name: string): (r: string)
    ensures |r| <= |name| && r == name[..|r|]
    ensures '.' !in r
    ensures |r| == |name| || name[|r|] == '.'
  {
    name[..Find(name, '.')]
  }

  /** The name an alias binds: the alias when it is given (and not empty), the module's first segment or the imported name otherwise. */
  function BoundName(a: Alias, dotted: bool): string
  {
    if a.asname.Some? && a.asname.value != "" then a.asname.value
    else if dotted then FirstSegment(a.name)
    else a.name
  }

  /** The names an import statement binds. */
  function ImportNames(names: seq<Alias>, dotted: bool): set<string>
  {
    set k | 0 <= k < |names| :: BoundName(names[k], dotted)
  }

  /** The names of the top-level `def`s and `class`es of a module body. */
  function TopNames(body: seq<Node>): set<string>
  {
    set k | 0 <= k < |body| && (body[k].FunctionDef? || body[k].ClassDef?) :: body[k].name
  }

  /** The parameter names of a `def` as a set. */
  function Params(params: seq<string>): set<string>
  {
    set k | 0 <= k < |params| :: params[k]
  }

  /** The result of `visit(n)` from state `s`, with `B` the names of `dir(builtins)`. */
  function Walk(n: Node, s: Checked, B: set<string>): Checked
    decreases n, 1
  {
    match n
    case Module(body) => WalkAll(body, s.(defined := s.defined + TopNames(body)), B)
    case FunctionDef(name, params, children) => WalkAll(children, s.(defined := s.defined + {name} + Params(params)), B)
    case ClassDef(name, children) => WalkAll(children, s.(defined := s.defined + {name}), B)
    case Import(names) => s.(defined := s.defined + ImportNames(names, true))
    case ImportFrom(names) => s.(defined := s.defined + ImportNames(names, false))
    case Name(id, ctx, line, col) =>
      if ctx == Store then s.(defined := s.defined + {id})
      else if ctx == Load && id !in s.defined && id !in B then s.(errors := s.errors + [Finding(id, line, col)])
      else s
    case Comprehension(target, iter, ifs) => WalkAll(ifs, Walk(iter, Walk(target, s, B), B), B)
    case Comp(_, generators, elt) => Walk(elt, WalkAll(generators, s, B), B)
    case DictComp(generators, key, value) => Walk(value, Walk(key, WalkAll(generators, s, B), B), B)
    case Generic(children) => WalkAll(children, s, B)
  }

  /** Visiting the nodes of `ns` in order. */
  function WalkAll(ns: seq<Node>, s: Checked, B: set<string>): Checked
    decreases ns, 0
  {
    if ns == [] then s else Walk(ns[|ns| - 1], WalkAll(ns[..|ns| - 1], s, B), B)
  }

  /** `s` grows into `r`: names are only added, findings only appended, and no finding added is a builtin. */
  predicate Grows(s: Checked, r: Checked, B: set<string>)
  {
    s.defined <= r.defined && |s.errors| <= |r.errors| && r.errors[..|s.errors|] == s.errors &&
    forall k :: |s.errors| <= k < |r.errors| ==> r.errors[k].id !in B && r.errors[k].id !in s.defined
  }

  lemma GrowsTrans(s: Checked, m: Checked, r: Checked, B: set<string>)
    requires Grows(s, m, B) && Grows(m, r, B)
    ensures Grows(s, r, B)
  {
    assert r.errors[..|s.errors|] == r.errors[..|m.errors|][..|s.errors|];
    forall k | |s.errors| <= k < |r.errors| ensures r.errors[k].id !in B && r.errors[k].id !in s.defined {
      if k < |m.errors| {
        assert r.errors[k] == m.errors[k];
      }
    }
  }

  /**
   * The walk only adds names and appends findings, so findings come out in
   * visiting order; builtins are never reported, and neither is a name that
   * was already bound when the walk started.
   */
  lemma {:induction false} WalkGrows(n: Node, s: Checked, B: set<string>)
    ensures Grows(s, Walk(n, s, B), B)
    decreases n, 1
  {
    match n
    case Module(body) =>
      WalkAllGrows(body, s.(defined := s.defined + TopNames(body)), B);
    case FunctionDef(name, params, children) =>
      WalkAllGrows(children, s.(defined := s.defined + {name} + Params(params)), B);
    case ClassDef(name, children) =>
      WalkAllGrows(children, s.(defined := s.defined + {name}), B);
    case Import(names) =>
    case ImportFrom(names) =>
    case Name(id, ctx, line, col) =>
    case Comprehension(target, iter, ifs) =>
      var s1 := Walk(target, s, B);
      var s2 := Walk(iter, s1, B);
      WalkGrows(target, s, B);
      WalkGrows(iter, s1, B);
      WalkAllGrows(ifs, s2, B);
      GrowsTrans(s, s1, s2, B);
      GrowsTrans(s, s2, Walk(n, s, B), B);
    case Comp(_, generators, elt) =>
      var s1 := WalkAll(generators, s, B);
      WalkAllGrows(generators, s, B);
      WalkGrows(elt, s1, B);
      GrowsTrans(s, s1, Walk(n, s, B), B);
    case DictComp(generators, key, value) =>
      var s1 := WalkAll(generators, s, B);
      var s2 := Walk(key, s1, B);
      WalkAllGrows(generators, s, B);
      WalkGrows(key, s1, B);
      WalkGrows(value, s2, B);
      GrowsTrans(s, s1, s2, B);
      GrowsTrans(s, s2, Walk(n, s, B), B);
    case Generic(children) =>
      WalkAllGrows(children, s, B);
  }

  lemma {:induction false} WalkAllGrows(ns: seq<Node>, s: Checked, B: set<string>)
    ensures Grows(s, WalkAll(ns, s, B), B)
    decreases ns, 0
  {
    if ns != [] {
      var m := WalkAll(ns[..|ns| - 1], s, B);
      WalkAllGrows(ns[..|ns| - 1], s, B);
      WalkGrows(ns[|ns| - 1], m, B);
      GrowsTrans(s, m, WalkAll(ns, s, B), B);
    }
  }

  /** The findings `r` has beyond those of `s`. */
  function NewFindings(s: Checked, r: Checked): seq<Finding>
    requires |s.errors| <= |r.errors|
  {
    r.errors[|s.errors|..]
  }

  /** A loaded name is reported exactly when it is neither bound so far nor a builtin; a stored name is bound. */
  lemma NameVisit(id: string, ctx: Ctx, line: nat, col: nat, s: Checked, B: set<string>)
    ensures var r := Walk(Name(id, ctx, line, col), s, B);
      (ctx == Store ==> r == Checked(s.defined + {id}, s.errors)) &&
      (ctx == Load ==> (r.defined == s.defined &&
        (r.errors == s.errors + [Finding(id, line, col)] <==> id !in s.defined && id !in B) &&
        (r.errors == s.errors <==> id in s.defined || id in B))) &&
      (ctx == Del ==> r == s)
  {
    var r := Walk(Name(id, ctx, line, col), s, B);
    if ctx == Load && (id in s.defined || id in B) {
      assert r.errors == s.errors;
      assert |s.errors + [Finding(id, line, col)]| != |s.errors|;
    }
  }

  /** `import a.b.c` binds `a`, `import m as x` binds `x`; `from m import n` binds `n`, `from m import n as x` binds `x`. */
  lemma ImportBinds(names: seq<Alias>, s: Checked, B: set<string>)
    ensures Walk(Import(names), s, B).errors == s.errors && Walk(ImportFrom(names), s, B).errors == s.errors
    ensures forall x :: x in Walk(Import(names), s, B).defined <==>
      x in s.defined || exists k | 0 <= k < |names| ::
        x == (if names[k].asname.Some? && names[k].asname.value != "" then names[k].asname.value else FirstSegment(names[k].name))
    ensures forall x :: x in Walk(ImportFrom(names), s, B).defined <==>
      x in s.defined || exists k | 0 <= k < |names| ::
        x == (if names[k].asname.Some? && names[k].asname.value != "" then names[k].asname.value else names[k].name)
  {
  }

  /** A `def` binds its name and its positional parameters before its body is visited, so neither is reported inside the `def`. */
  lemma FunctionDefBindsFirst(name: string, params: seq<string>, children: seq<Node>, s: Checked, B: set<string>)
    ensures var r := Walk(FunctionDef(name, params, children), s, B);
      Grows(s, r, B) && name in r.defined && (forall k :: 0 <= k < |params| ==> params[k] in r.defined) &&
      forall f :: f in NewFindings(s, r) ==> f.id != name && f.id !in params
  {
    var s1 := s.(defined := s.defined + {name} + Params(params));
    var r := WalkAll(children, s1, B);
    WalkAllGrows(children, s1, B);
    forall f | f in NewFindings(s, r) ensures f.id != name && f.id !in params {
      var j :| 0 <= j < |NewFindings(s, r)| && NewFindings(s, r)[j] == f;
      assert r.errors[|s.errors| + j] == f;
    }
  }

  /** The top-level `def` and `class` names of a module are bound before the walk: forward references to them are not reported. */
  lemma ModuleBindsTopNames(body: seq<Node>, s: Checked, B: set<string>)
    ensures var r := Walk(Module(body), s, B);
      Grows(s, r, B) &&
      forall k, f :: 0 <= k < |body| && (body[k].FunctionDef? || body[k].ClassDef?) && f in NewFindings(s, r) ==> f.id != body[k].name
  {
    var s1 := s.(defined := s.defined + TopNames(body));
    var r := WalkAll(body, s1, B);
    WalkAllGrows(body, s1, B);
    forall k, f | 0 <= k < |body| && (body[k].FunctionDef? || body[k].ClassDef?) && f in NewFindings(s, r)
      ensures f.id != body[k].name
    {
      var j :| 0 <= j < |NewFindings(s, r)| && NewFindings(s, r)[j] == f;
      assert r.errors[|s.errors| + j] == f;
      assert body[k].name in TopNames(body);
    }
  }

  /**
   * A comprehension's first target is visited before everything else in
   * it, so its variable is never reported there, and it stays bound after
   * the comprehension.
   */
  lemma CompTargetBound(kind: CompKind, generators: seq<Node>, elt: Node, s: Checked, B: set<string>)
    requires generators != [] && generators[0].Comprehension? && generators[0].target.Name?
    requires generators[0].target.ctx == Store
    ensures var x := generators[0].target.id; var r := Walk(Comp(kind, generators, elt), s, B);
      Grows(s, r, B) && x in r.defined && forall f :: f in NewFindings(s, r) ==> f.id != x
  {
    var x := generators[0].target.id;
    var s1 := Checked(s.defined + {x}, s.errors);
    var sa := WalkAll(generators, s, B);
    GeneratorsBindFirstTarget(generators, s, B);
    var r := Walk(elt, sa, B);
    WalkGrows(elt, sa, B);
    GrowsTrans(s1, sa, r, B);
    NoFindingOfBound(s, s1, r, x, B);
  }

  /** The same holds for a dict comprehension, whose key and then value are visited after the generators. */
  lemma DictCompTargetBound(generators: seq<Node>, key: Node, value: Node, s: Checked, B: set<string>)
    requires generators != [] && generators[0].Comprehension? && generators[0].target.Name?
    requires generators[0].target.ctx == Store
    ensures var x := generators[0].target.id; var r := Walk(DictComp(generators, key, value), s, B);
      Grows(s, r, B) && x in r.defined && forall f :: f in NewFindings(s, r) ==> f.id != x
  {
    var x := generators[0].target.id;
    var s1 := Checked(s.defined + {x}, s.errors);
    var sa := WalkAll(generators, s, B);
    GeneratorsBindFirstTarget(generators, s, B);
    var sk := Walk(key, sa, B);
    WalkGrows(key, sa, B);
    GrowsTrans(s1, sa, sk, B);
    var r := Walk(value, sk, B);
    WalkGrows(value, sk, B);
    GrowsTrans(s1, sk, r, B);
    NoFindingOfBound(s, s1, r, x, B);
  }

  /** Walking the generators binds the first target before anything else is looked up. */
  lemma GeneratorsBindFirstTarget(generators: seq<Node>, s: Checked, B: set<string>)
    requires generators != [] && generators[0].Comprehension? && generators[0].target.Name?
    requires generators[0].target.ctx == Store
    ensures Grows(Checked(s.defined + {generators[0].target.id}, s.errors), WalkAll(generators, s, B), B)
  {
    var g := generators[0];
    var x := g.target.id;
    var s1 := Walk(g.target, s, B);
    assert s1 == Checked(s.defined + {x}, s.errors);
    var sg := Walk(g, s, B);
    var sg2 := Walk(g.iter, s1, B);
    WalkGrows(g.iter, s1, B);
    WalkAllGrows(g.ifs, sg2, B);
    GrowsTrans(s1, sg2, sg, B);
    assert WalkAll(generators[..1], s, B) == sg by {
      assert generators[..1][..0] == [];
    }
    var sa := WalkAll(generators, s, B);
    WalkAllAfterFirst(generators, s, B);
    GrowsTrans(s1, sg, sa, B);
  }

  /** Once `x` is bound on top of `s`, nothing grown from there reports it. */
  lemma NoFindingOfBound(s: Checked, s1: Checked, r: Checked, x: string, B: set<string>)
    requires s1 == Checked(s.defined + {x}, s.errors)
    requires Grows(s1, r, B)
    ensures Grows(s, r, B) && x in r.defined && forall f :: f in NewFindings(s, r) ==> f.id != x
  {
    forall f | f in NewFindings(s, r) ensures f.id != x {
      var j :| 0 <= j < |NewFindings(s, r)| && NewFindings(s, r)[j] == f;
      assert r.errors[|s1.errors| + j] == f;
    }
  }

  /** The nodes after the first one grow the state the first one leaves. */
  lemma {:induction false} WalkAllAfterFirst(ns: seq<Node>, s: Checked, B: set<string>)
    requires ns != []
    ensures Grows(WalkAll(ns[..1], s, B), WalkAll(ns, s, B), B)
    decreases |ns|
  {
    if |ns| > 1 {
      var init := ns[..|ns| - 1];
      assert init[..1] == ns[..1];
      WalkAllAfterFirst(init, s, B);
      WalkGrows(ns[|ns| - 1], WalkAll(init, s, B), B);
      GrowsTrans(WalkAll(ns[..1], s, B), WalkAll(init, s, B), WalkAll(ns, s, B), B);
    } else {
      assert ns[..1] == ns;
      var r := WalkAll(ns, s, B);
      assert r.errors[..|r.errors|] == r.errors;
    }
  }

  /**
   * Only the module level is pre-registered: inside a `def`, a call of a
   * function defined later in the same body is reported.
   */
  lemma NestedForwardReported(B: set<string>)
    requires "g" !in B
    ensures var body := [Name("g", Load, 2, 4), FunctionDef("g", [], [])];
      Walk(Module([FunctionDef("f", [], body)]), Checked({}, []), B).errors == [Finding("g", 2, 4)]
  {
    var body := [Name("g", Load, 2, 4), FunctionDef("g", [], [])];
    var top := [FunctionDef("f", [], body)];
    assert TopNames(top) == {"f"} by {
      assert top[0].name == "f";
      assert "f" in TopNames(top);
    }
    var s1 := Checked({"f"}, []);
    assert Checked({}, []).(defined := {} + TopNames(top)) == s1;
    assert Walk(Module(top), Checked({}, []), B) == WalkAll(top, Checked({}, []).(defined := {} + TopNames(top)), B);
    assert WalkAll(top, s1, B) == Walk(top[0], s1, B) by {
      assert top[..0] == [];
    }
    assert Walk(top[0], s1, B) == WalkAll(body, s1, B) by {
      assert Params([]) == {};
    }
    var s2 := Checked({"f"}, [Finding("g", 2, 4)]);
    assert WalkAll(body[..1], s1, B) == s2 by {
      assert body[..1][..0] == [];
    }
    assert WalkAll(body, s1, B) == Walk(body[1], s2, B);
    assert Walk(body[1], s2, B).errors == s2.errors;
  }

  /**
   * The visitor.  `visit` dispatches on the node kind; nodes without a
   * `visit_` method of their own get `generic_visit`.
   */
  class NameChecker {
    var definedNames: set<string>
    var errors: seq<Finding>
    /** The names of `dir(builtins)`. */
    const builtinNames: set<string>

    function State(): Checked
      reads this
    {
      Checked(definedNames, errors)
    }

    /** A new checker: nothing bound, no findings. */
    constructor (builtinNames: set<string>)
      ensures definedNames == {} && errors == [] && this.builtinNames == builtinNames
    {
      definedNames := {};
      errors := [];
      this.builtinNames := builtinNames;
    }

    /** `visit(n)`. */
    method Visit(n: Node)
      modifies this
      ensures State() == Walk(n, old(State()), builtinNames)
      decreases n, 1
    {
      match n
      case Module(body) =>
        RegisterTopNames(body);
        VisitAll(body);
      case FunctionDef(name, params, children) =>
        BindParams(name, params);
        VisitAll(children);
      case ClassDef(name, children) =>
        definedNames := definedNames + {name};
        VisitAll(children);
      case Import(names) =>
        BindAliases(names, true);
      case ImportFrom(names) =>
        BindAliases(names, false);
      case Name(id, ctx, line, col) =>
        if ctx == Store {
          definedNames := definedNames + {id};
        } else if ctx == Load {
          if id !in definedNames && id !in builtinNames {
            errors := errors + [Finding(id, line, col)];
          }
        }
      case Comprehension(target, iter, ifs) =>
        Visit(target);
        Visit(iter);
        VisitAll(ifs);
      case Comp(_, generators, elt) =>
        VisitAll(generators);
        Visit(elt);
      case DictComp(generators, key, value) =>
        VisitAll(generators);
        Visit(key);
        Visit(value);
      case Generic(children) =>
        VisitAll(children);
    }

    /** The pre-registration pass of `visit_Module` over the top-level statements. */
    method RegisterTopNames(body: seq<Node>)
      modifies this
      ensures definedNames == old(definedNames) + TopNames(body) && errors == old(errors)
    {
      for i := 0 to |body|
        invariant definedNames == old(definedNames) + TopNamesUpTo(body, i) && errors == old(errors)
      {
        TopNamesStep(body, i);
        if body[i].FunctionDef? || body[i].ClassDef? {
          definedNames := definedNames + {body[i].name};
        }
      }
      TopNamesAll(body);
    }

    /** The bindings `visit_FunctionDef` makes before its `generic_visit`. */
    method BindParams(name: string, params: seq<string>)
      modifies this
      ensures definedNames == old(definedNames) + {name} + Params(params) && errors == old(errors)
    {
      definedNames := definedNames + {name};
      for i := 0 to |params|
        invariant definedNames == old(definedNames) + {name} + Params(params[..i]) && errors == old(errors)
      {
        ParamsStep(params, i);
        definedNames := definedNames + {params[i]};
      }
      assert params[..|params|] == params;
    }

    /** The loop of `visit_Import` (`dotted`) or `visit_ImportFrom`. */
    method BindAliases(names: seq<Alias>, dotted: bool)
      modifies this
      ensures definedNames == old(definedNames) + ImportNames(names, dotted) && errors == old(errors)
    {
      for i := 0 to |names|
        invariant definedNames == old(definedNames) + ImportNames(names[..i], dotted) && errors == old(errors)
      {
        ImportNamesStep(names, i, dotted);
        definedNames := definedNames + {BoundName(names[i], dotted)};
      }
      assert names[..|names|] == names;
    }

    /** `for item in ns: self.visit(item)`. */
    method VisitAll(ns: seq<Node>)
      modifies this
      ensures State() == WalkAll(ns, old(State()), builtinNames)
      decreases ns, 0
    {
      for i := 0 to |ns|
        invariant State() == WalkAll(ns[..i], old(State()), builtinNames)
      {
        assert ns[..i + 1][..i] == ns[..i];
        Visit(ns[i]);
      }
      assert ns[..|ns|] == ns;
    }
  }

  /** The top-level names among the first `i` statements. */
  function TopNamesUpTo(body: seq<Node>, i: nat): set<string>
    requires i <= |body|
  {
    set k | 0 <= k < i && (body[k].FunctionDef? || body[k].ClassDef?) :: body[k].name
  }

  lemma TopNamesStep(body: seq<Node>, i: nat)
    requires i < |body|
    ensures TopNamesUpTo(body, i + 1) ==
      TopNamesUpTo(body, i) + (if body[i].FunctionDef? || body[i].ClassDef? then {body[i].name} else {})
  {
  }

  lemma TopNamesAll(body: seq<Node>)
    ensures TopNamesUpTo(body, |body|) == TopNames(body)
  {
  }

  lemma ParamsStep(params: seq<string>, i: nat)
    requires i < |params|
    ensures Params(params[..i + 1]) == Params(params[..i]) + {params[i]}
  {
    var a, b := params[..i + 1], params[..i];
    forall x | x in Params(a) ensures x in Params(b) + {params[i]} {
      var k :| 0 <= k < |a| && a[k] == x;
      if k < i {
        assert b[k] == x;
      }
    }
    forall x | x in Params(b) + {params[i]} ensures x in Params(a) {
      if x == params[i] {
        assert a[i] == x;
      } else {
        var k :| 0 <= k < |b| && b[k] == x;
        assert a[k] == x;
      }
    }
  }

  lemma ImportNamesStep(names: seq<Alias>, i: nat, dotted: bool)
    requires i < |names|
    ensures ImportNames(names[..i + 1], dotted) == ImportNames(names[..i], dotted) + {BoundName(names[i], dotted)}
  {
    var a, b := names[..i + 1], names[..i];
    forall x | x in ImportNames(a, dotted) ensures x in ImportNames(b, dotted) + {BoundName(names[i], dotted)} {
      var k :| 0 <= k < |a| && BoundName(a[k], dotted) == x;
      if k < i {
        assert b[k] == a[k];
      }
    }
    forall x | x in ImportNames(b, dotted) + {BoundName(names[i], dotted)} ensures x in ImportNames(a, dotted) {
      if x == BoundName(names[i], dotted) {
        assert a[i] == names[i];
      } else {
        var k :| 0 <= k < |b| && BoundName(b[k], dotted) == x;
        assert a[k] == b[k];
      }
    }
  }
}
