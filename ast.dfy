/**
 * The declaration graph that the generator's passes rewrite, and the lookup
 * helpers of the binding library they call: each resolves a name to exactly
 * one declaration (or fails) and then sets one field of it.
 */
module Ast {

  datatype Option<T> = None | Some(value: T)

  /** The outcome of a "find exactly one" search. */
  datatype Lookup<T> = Found(value: T) | Missing | Ambiguous

  /** Why a pass stops: the exceptions the lookups and the rule dispatch throw. */
  datatype Error =
    | NoMatch(name: string)            // nothing matched the name
    | MoreThanOneMatch(name: string)   // several declarations matched the name
    | NullName                         // a lookup was handed a null name
    | ArgumentOutOfRange               // Ignore was handed an IgnoreType outside its four cases

  datatype Result<T> = Ok(value: T) | Err(error: Error) {
    predicate IsFailure() { Err? }
    function PropagateFailure<U>(): Result<U>
      requires Err?
    {
      Err(error)
    }
    function Extract(): T
      requires Ok?
    {
      value
    }
  }

  /** What a pass method reports to its caller. */
  datatype Outcome = Pass | Fail(error: Error)

  function OutcomeOf<T>(r: Result<T>): (o: Outcome)
    ensures o.Pass? <==> r.Ok?
  {
    if r.Ok? then Pass else Fail(r.error)
  }

  /** A lookup that must find exactly one match, as an exception-raising call. */
  function Single<T>(l: Lookup<T>, name: string): (r: Result<T>)
    ensures r.Ok? <==> l.Found?
    ensures r.Ok? ==> r.value == l.value
    ensures l.Missing? ==> r == Err(NoMatch(name))
    ensures l.Ambiguous? ==> r == Err(MoreThanOneMatch(name))
  {
    match l
    case Found(v) => Ok(v)
    case Missing => Err(NoMatch(name))
    case Ambiguous => Err(MoreThanOneMatch(name))
  }

  // ---------------------------------------------------------------------------
  // The declarations

  /** A property's declared type, as far as the passes look at it. */
  datatype TypeRef =
    | TemplateSpecialization(template: string)   // e.g. ImVector<ImDrawCmd>: the template's name
    | OtherType(spelling: string)

  datatype Property = Property(name: string, ty: TypeRef, readOnly: bool, ignored: bool)

  datatype ClassMethod = ClassMethod(name: string, ignored: bool)

  datatype EnumItem = EnumItem(name: string, ignored: bool)

  /** The declaration context a declaration's `Namespace` field points to. */
  datatype Scope = UnitScope(fileName: string) | NamespaceScope(name: string)

  datatype Decl =
    | Namespace(name: string, parent: Scope, ignored: bool, decls: seq<Decl>)
    | Enumeration(name: string, parent: Scope, ignored: bool, items: seq<EnumItem>, isFlags: bool)
    | Class(name: string, parent: Scope, ignored: bool, properties: seq<Property>,
            methods: seq<ClassMethod>, isValueType: bool)
    | Typedef(name: string, parent: Scope, ignored: bool)
    | Function(name: string, parent: Scope, ignored: bool)

  datatype TranslationUnit = TranslationUnit(fileName: string, decls: seq<Decl>)

  datatype Kind = NamespaceKind | EnumerationKind | ClassKind | TypedefKind | FunctionKind

  function KindOf(d: Decl): Kind {
    match d
    case Namespace(_, _, _, _) => NamespaceKind
    case Enumeration(_, _, _, _, _) => EnumerationKind
    case Class(_, _, _, _, _, _) => ClassKind
    case Typedef(_, _, _) => TypedefKind
    case Function(_, _, _) => FunctionKind
  }

  /** The number of declarations in `decls`, counting those nested in namespaces. */
  function DeclCount(decls: seq<Decl>): nat
    decreases decls
  {
    if decls == [] then 0
    else
      var d := decls[0];
      assert d in decls;
      1 + (if d.Namespace? then DeclCount(d.decls) else 0) + DeclCount(decls[1..])
  }

  lemma {:induction false} DeclCountAppend(a: seq<Decl>, b: seq<Decl>)
    ensures DeclCount(a + b) == DeclCount(a) + DeclCount(b)
    decreases a
  {
    if a != [] {
      assert (a + b)[0] == a[0] && (a + b)[1..] == a[1..] + b;
      DeclCountAppend(a[1..], b);
    } else {
      assert a + b == b;
    }
  }

  /** Replacing one declaration changes the count by the difference of the two. */
  lemma DeclCountUpdate(decls: seq<Decl>, n: nat, d: Decl)
    requires n < |decls|
    ensures DeclCount(decls[n := d]) + DeclCount([decls[n]]) == DeclCount(decls) + DeclCount([d])
  {
    assert decls == decls[..n] + [decls[n]] + decls[n + 1..];
    assert decls[n := d] == decls[..n] + [d] + decls[n + 1..];
    DeclCountAppend(decls[..n] + [decls[n]], decls[n + 1..]);
    DeclCountAppend(decls[..n], [decls[n]]);
    DeclCountAppend(decls[..n] + [d], decls[n + 1..]);
    DeclCountAppend(decls[..n], [d]);
  }

  // ---------------------------------------------------------------------------
  // Positions and updates

  /** The position of a declaration directly inside a translation unit. */
  datatype Loc = Loc(unit: nat, index: nat)

  predicate ValidLoc(units: seq<TranslationUnit>, l: Loc) {
    l.unit < |units| && l.index < |units[l.unit].decls|
  }

  function DeclAt(units: seq<TranslationUnit>, l: Loc): Decl
    requires ValidLoc(units, l)
  {
    units[l.unit].decls[l.index]
  }

  /** `l` holds a declaration of that kind with that name. */
  predicate IsDeclOf(units: seq<TranslationUnit>, l: Loc, kind: Kind, name: string) {
    ValidLoc(units, l) && KindOf(DeclAt(units, l)) == kind && DeclAt(units, l).name == name
  }

  /** The same units with the same number of declarations each. */
  /** The same units, in the same order, by file name. */
  predicate SameFileNames(a: seq<TranslationUnit>, b: seq<TranslationUnit>) {
    |a| == |b| && forall u | 0 <= u < |a| :: a[u].fileName == b[u].fileName
  }

  predicate SameShape(a: seq<TranslationUnit>, b: seq<TranslationUnit>) {
    |a| == |b| && forall u | 0 <= u < |a| :: a[u].fileName == b[u].fileName && |a[u].decls| == |b[u].decls|
  }

  /** Writes `d` at `l`; every other declaration stays as it was. */
  function SetDecl(units: seq<TranslationUnit>, l: Loc, d: Decl): (r: seq<TranslationUnit>)
    requires ValidLoc(units, l)
    ensures SameShape(r, units)
    ensures DeclAt(r, l) == d
    ensures forall l' | ValidLoc(units, l') && l' != l :: DeclAt(r, l') == DeclAt(units, l')
  {
    units[l.unit := units[l.unit].(decls := units[l.unit].decls[l.index := d])]
  }

  // ---------------------------------------------------------------------------
  // Find exactly one

  /**
   * Enumerable.Single(predicate): the index of the only element satisfying
   * `p`, or why there is not exactly one.
   */
  function FindSingle<T>(xs: seq<T>, p: T -> bool): (r: Lookup<nat>)
    ensures r.Found? ==> r.value < |xs| && p(xs[r.value])
    ensures r.Found? ==> forall j | 0 <= j < |xs| && p(xs[j]) :: j == r.value
    ensures r.Missing? <==> forall j | 0 <= j < |xs| :: !p(xs[j])
    ensures r.Ambiguous? <==> exists i, j | 0 <= i < j < |xs| :: p(xs[i]) && p(xs[j])
    decreases |xs|
  {
    if |xs| == 0 then Missing
    else
      var last := |xs| - 1;
      var init := xs[..last];
      assert forall j | 0 <= j < last :: init[j] == xs[j];
      match FindSingle(init, p)
      case Missing => if p(xs[last]) then Found(last) else Missing
      case Found(i) => if p(xs[last]) then Ambiguous else Found(i)
      case Ambiguous => Ambiguous
  }

  /** The only element satisfying `p` is found. */
  lemma FindSingleOnly<T>(xs: seq<T>, p: T -> bool, j: nat)
    requires j < |xs| && p(xs[j])
    requires forall j' | 0 <= j' < |xs| && p(xs[j']) :: j' == j
    ensures FindSingle(xs, p) == Found(j)
  {
    assert !exists a, b | 0 <= a < b < |xs| :: p(xs[a]) && p(xs[b]);
  }

  /** The search finds something exactly when one element, and only one, satisfies `p`. */
  lemma FoundExactlyOne<T>(xs: seq<T>, p: T -> bool)
    ensures FindSingle(xs, p).Found? <==>
            exists j | 0 <= j < |xs| :: p(xs[j]) && forall j' | 0 <= j' < |xs| && p(xs[j']) :: j' == j
  {
    if exists j | 0 <= j < |xs| :: p(xs[j]) && forall j' | 0 <= j' < |xs| && p(xs[j']) :: j' == j {
      var j :| 0 <= j < |xs| && p(xs[j]) && forall j' | 0 <= j' < |xs| && p(xs[j']) :: j' == j;
      FindSingleOnly(xs, p, j);
    }
  }

  /** Two searches that test corresponding elements alike come to the same answer. */
  lemma FindSingleAgree<T, U>(xs: seq<T>, p: T -> bool, ys: seq<U>, q: U -> bool)
    requires |xs| == |ys|
    requires forall j | 0 <= j < |xs| :: p(xs[j]) == q(ys[j])
    ensures FindSingle(xs, p) == FindSingle(ys, q)
  {
    var a, b := FindSingle(xs, p), FindSingle(ys, q);
    if a.Ambiguous? {
      var i, j :| 0 <= i < j < |xs| && p(xs[i]) && p(xs[j]);
      assert q(ys[i]) && q(ys[j]);
    }
    if b.Ambiguous? {
      var i, j :| 0 <= i < j < |ys| && q(ys[i]) && q(ys[j]);
      assert p(xs[i]) && p(xs[j]);
    }
  }

  /**
   * The declaration of that kind and name among the declarations directly
   * inside the translation units, if there is exactly one.
   */
  function FindDecl(units: seq<TranslationUnit>, kind: Kind, name: string): (r: Lookup<Loc>)
    ensures r.Found? ==> IsDeclOf(units, r.value, kind, name)
    ensures r.Found? ==> forall l | IsDeclOf(units, l, kind, name) :: l == r.value
    ensures r.Missing? <==> forall l :: !IsDeclOf(units, l, kind, name)
    ensures r.Ambiguous? <==> exists l, l' :: l != l' && IsDeclOf(units, l, kind, name) && IsDeclOf(units, l', kind, name)
    decreases |units|
  {
    if |units| == 0 then Missing
    else
      var last := |units| - 1;
      var init := units[..last];
      var here := FindSingle(units[last].decls, d => KindOf(d) == kind && d.name == name);
      var before := FindDecl(init, kind, name);
      FindDeclStep(units, init, last, kind, name);
      FindDeclLastUnit(units, last, kind, name, here);
      match before
      case Ambiguous => Ambiguous
      case Missing =>
        (match here
         case Found(i) => Found(Loc(last, i))
         case Missing => Missing
         case Ambiguous => Ambiguous)
      case Found(l) => if here.Missing? then Found(l) else Ambiguous
  }

  /** A declaration of the earlier units is one of all units; the last unit's are matched directly. */
  lemma FindDeclStep(units: seq<TranslationUnit>, init: seq<TranslationUnit>, last: nat, kind: Kind, name: string)
    requires last + 1 == |units| && init == units[..last]
    ensures forall l: Loc | l.unit < last :: IsDeclOf(units, l, kind, name) == IsDeclOf(init, l, kind, name)
    ensures forall l: Loc | l.unit >= last :: !IsDeclOf(init, l, kind, name)
    ensures forall l: Loc | l.unit == last :: IsDeclOf(units, l, kind, name) ==
              (l.index < |units[last].decls| && KindOf(units[last].decls[l.index]) == kind && units[last].decls[l.index].name == name)
  {
    forall l: Loc | l.unit < last ensures IsDeclOf(units, l, kind, name) == IsDeclOf(init, l, kind, name) {
      assert units[l.unit] == init[l.unit];
    }
  }

  /** Matches in the last unit, seen as positions among all units. */
  lemma FindDeclLastUnit(units: seq<TranslationUnit>, last: nat, kind: Kind, name: string, here: Lookup<nat>)
    requires last + 1 == |units|
    requires here == FindSingle(units[last].decls, d => KindOf(d) == kind && d.name == name)
    ensures here.Found? ==> IsDeclOf(units, Loc(last, here.value), kind, name)
    ensures here.Ambiguous? ==> exists l, l' :: l != l' && IsDeclOf(units, l, kind, name) && IsDeclOf(units, l', kind, name)
  {
    if here.Ambiguous? {
      var i, j :| 0 <= i < j < |units[last].decls| && KindOf(units[last].decls[i]) == kind && units[last].decls[i].name == name
                  && KindOf(units[last].decls[j]) == kind && units[last].decls[j].name == name;
      assert IsDeclOf(units, Loc(last, i), kind, name) && IsDeclOf(units, Loc(last, j), kind, name);
    }
  }

  /** Exactly one declaration of that kind has that name. */
  ghost predicate UniqueDecl(units: seq<TranslationUnit>, kind: Kind, name: string) {
    exists l :: IsDeclOf(units, l, kind, name) && forall l' | IsDeclOf(units, l', kind, name) :: l' == l
  }

  /** Exactly one property of the class has that name. */
  ghost predicate OneProperty(c: Decl, name: string)
    requires c.Class?
  {
    exists j | 0 <= j < |c.properties| :: c.properties[j].name == name &&
      forall j' | 0 <= j' < |c.properties| && c.properties[j'].name == name :: j' == j
  }

  /** Exactly one method of the class has that name. */
  ghost predicate OneMethod(c: Decl, name: string)
    requires c.Class?
  {
    exists j | 0 <= j < |c.methods| :: c.methods[j].name == name &&
      forall j' | 0 <= j' < |c.methods| && c.methods[j'].name == name :: j' == j
  }

  /** The lookup finds its declaration exactly when there is exactly one. */
  lemma FindDeclUnique(units: seq<TranslationUnit>, kind: Kind, name: string)
    ensures FindDecl(units, kind, name).Found? <==> UniqueDecl(units, kind, name)
  {
    if UniqueDecl(units, kind, name) {
      var l :| IsDeclOf(units, l, kind, name) && forall l' | IsDeclOf(units, l', kind, name) :: l' == l;
      assert !FindDecl(units, kind, name).Missing?;
    }
  }

  /** Lookups only see kinds and names, so two graphs that agree on those agree on every lookup. */
  lemma FindDeclSameNames(a: seq<TranslationUnit>, b: seq<TranslationUnit>, kind: Kind, name: string)
    requires SameNames(a, b)
    ensures FindDecl(a, kind, name) == FindDecl(b, kind, name)
  {
    assert forall l :: IsDeclOf(a, l, kind, name) == IsDeclOf(b, l, kind, name);
    var ra, rb := FindDecl(a, kind, name), FindDecl(b, kind, name);
    if ra.Ambiguous? {
      var l, l' :| l != l' && IsDeclOf(a, l, kind, name) && IsDeclOf(a, l', kind, name);
      assert IsDeclOf(b, l, kind, name) && IsDeclOf(b, l', kind, name);
    }
    if rb.Ambiguous? {
      var l, l' :| l != l' && IsDeclOf(b, l, kind, name) && IsDeclOf(b, l', kind, name);
      assert IsDeclOf(a, l, kind, name) && IsDeclOf(a, l', kind, name);
    }
  }

  /** Declarations no lookup can tell apart: the same kind, name and, for classes, member names. */
  ghost predicate SameSignature(d: Decl, e: Decl) {
    KindOf(d) == KindOf(e) && d.name == e.name &&
    (d.Class? && e.Class? ==>
       |d.properties| == |e.properties| && |d.methods| == |e.methods| &&
       (forall j | 0 <= j < |d.properties| :: d.properties[j].name == e.properties[j].name) &&
       (forall j | 0 <= j < |d.methods| :: d.methods[j].name == e.methods[j].name))
  }

  /** The same shape, and at every position a declaration with the same signature. */
  ghost predicate SameNames(a: seq<TranslationUnit>, b: seq<TranslationUnit>) {
    SameShape(a, b) && forall l | ValidLoc(a, l) :: SameSignature(DeclAt(a, l), DeclAt(b, l))
  }

  /** Writing a declaration with the same signature keeps every name a lookup can see. */
  lemma SetDeclKeepsNames(units: seq<TranslationUnit>, l: Loc, d: Decl)
    requires ValidLoc(units, l) && SameSignature(d, DeclAt(units, l))
    ensures SameNames(SetDecl(units, l, d), units)
  {
  }

  // ---------------------------------------------------------------------------
  // The library's lookup-and-set helpers

  /**
   * The only declaration of that kind and name is marked ignored
   * (IgnoreClassWithName, IgnoreFunctionWithName, and
   * FindCompleteEnum(name).ExplicitlyIgnore()).
   */
  function IgnoreDecl(units: seq<TranslationUnit>, kind: Kind, name: string): (r: Result<seq<TranslationUnit>>)
    ensures r.Ok? <==> UniqueDecl(units, kind, name)
    ensures r.Ok? ==> SameShape(r.value, units)
    ensures r.Ok? ==> forall l | ValidLoc(units, l) ::
      DeclAt(r.value, l) == if IsDeclOf(units, l, kind, name) then MarkIgnored(DeclAt(units, l)) else DeclAt(units, l)
  {
    match FindDecl(units, kind, name)
    case Found(l) =>
      SetFoundDecl(units, kind, name, l, MarkIgnored(DeclAt(units, l)));
      Ok(SetDecl(units, l, MarkIgnored(DeclAt(units, l))))
    case Missing => Err(NoMatch(name))
    case Ambiguous => Err(MoreThanOneMatch(name))
  }

  /** The error names the declaration exactly when there is none of that kind and name. */
  lemma IgnoreDeclMissing(units: seq<TranslationUnit>, kind: Kind, name: string)
    ensures IgnoreDecl(units, kind, name) == Err(NoMatch(name)) <==> forall l :: !IsDeclOf(units, l, kind, name)
  {
    var found := FindDecl(units, kind, name);
    if found.Found? {
      assert IsDeclOf(units, found.value, kind, name);
    } else if found.Ambiguous? {
      assert IgnoreDecl(units, kind, name) == Err(MoreThanOneMatch(name));
    }
  }

  /** Writing at the only declaration of a kind and name changes that declaration and no other. */
  lemma SetFoundDecl(units: seq<TranslationUnit>, kind: Kind, name: string, l: Loc, d: Decl)
    requires IsDeclOf(units, l, kind, name) && forall l' | IsDeclOf(units, l', kind, name) :: l' == l
    ensures forall l' | ValidLoc(units, l') ::
      DeclAt(SetDecl(units, l, d), l') == if IsDeclOf(units, l', kind, name) then d else DeclAt(units, l')
  {
  }

  /** ExplicitlyIgnore() on a declaration. */
  function MarkIgnored(d: Decl): (r: Decl)
    ensures SameSignature(r, d) && r.ignored
  {
    d.(ignored := true)
  }

  /** SetClassAsValueType: the only class with that name becomes a value type. */
  function SetClassAsValueType(units: seq<TranslationUnit>, name: string): (r: Result<seq<TranslationUnit>>)
    ensures r.Ok? <==> UniqueDecl(units, ClassKind, name)
    ensures r.Ok? ==> SameShape(r.value, units)
    ensures r.Ok? ==> forall l | ValidLoc(units, l) ::
      DeclAt(r.value, l) == if IsDeclOf(units, l, ClassKind, name) then DeclAt(units, l).(isValueType := true) else DeclAt(units, l)
  {
    var l :- Single(FindDecl(units, ClassKind, name), name);
    Ok(SetDecl(units, l, DeclAt(units, l).(isValueType := true)))
  }

  /** IgnoreClassMethodWithName: the only method with that name of the only class with that name is ignored. */
  function IgnoreClassMethod(units: seq<TranslationUnit>, className: string, methodName: string): (r: Result<seq<TranslationUnit>>)
    ensures r.Ok? ==> UniqueDecl(units, ClassKind, className)
  {
    var l :- Single(FindDecl(units, ClassKind, className), className);
    var c := DeclAt(units, l);
    var m :- Single(FindSingle(c.methods, (m: ClassMethod) => m.name == methodName), methodName);
    Ok(SetDecl(units, l, c.(methods := c.methods[m := c.methods[m].(ignored := true)])))
  }

  /**
   * The properties with that name marked ignored, the others unchanged
   * (the effect of ignoring the one matching property).
   */
  function IgnoredNamed(props: seq<Property>, name: string): (r: seq<Property>)
    ensures |r| == |props|
    ensures forall j | 0 <= j < |props| :: r[j] == if props[j].name == name then props[j].(ignored := true) else props[j]
  {
    seq(|props|, j requires 0 <= j < |props| => if props[j].name == name then props[j].(ignored := true) else props[j])
  }

  /**
   * The methods with that name marked ignored, the others unchanged. A class's
   * properties and methods are two datatypes without a common supertype, so
   * this is IgnoredNamed over the other element type.
   */
  function IgnoredMethodsNamed(methods: seq<ClassMethod>, name: string): (r: seq<ClassMethod>)
    ensures |r| == |methods|
    ensures forall j | 0 <= j < |methods| :: r[j] == if methods[j].name == name then methods[j].(ignored := true) else methods[j]
  {
    seq(|methods|, j requires 0 <= j < |methods| => if methods[j].name == name then methods[j].(ignored := true) else methods[j])
  }

  /** FindCompleteClass(className).Properties.Single(name).ExplicitlyIgnore(). */
  function IgnoreClassProperty(units: seq<TranslationUnit>, className: string, propertyName: Option<string>): (r: Result<seq<TranslationUnit>>)
  {
    var l :- Single(FindDecl(units, ClassKind, className), className);
    var c := DeclAt(units, l);
    var j :- Single(FindSingle(c.properties, (p: Property) => Some(p.name) == propertyName),
                    if propertyName.Some? then propertyName.value else "");
    Ok(SetDecl(units, l, c.(properties := c.properties[j := c.properties[j].(ignored := true)])))
  }

  /** Properties.Single(p => p.Name == name). */
  function PropertyNamed(props: seq<Property>, name: string): Lookup<nat> {
    FindSingle(props, (p: Property) => p.name == name)
  }

  /** SetPropertyAsReadOnly: the only property with that name of the only class with that name becomes read-only. */
  function SetPropertyAsReadOnly(units: seq<TranslationUnit>, className: string, propertyName: string): (r: Result<seq<TranslationUnit>>)
    ensures var l := FindDecl(units, ClassKind, className);
            r.Ok? <==> l.Found? && PropertyNamed(DeclAt(units, l.value).properties, propertyName).Found?
  {
    var l :- Single(FindDecl(units, ClassKind, className), className);
    var c := DeclAt(units, l);
    var j :- Single(PropertyNamed(c.properties, propertyName), propertyName);
    Ok(SetDecl(units, l, c.(properties := c.properties[j := c.properties[j].(readOnly := true)])))
  }

  // ---------------------------------------------------------------------------
  // Applying a table of requests in order

  /** The requests applied one after the other; the first failure ends the run. */
  function Fold<S, R>(s: S, reqs: seq<R>, step: (S, R) -> Result<S>): Result<S>
    decreases |reqs|
  {
    if reqs == [] then Ok(s)
    else
      var prev :- Fold(s, reqs[..|reqs| - 1], step);
      step(prev, reqs[|reqs| - 1])
  }

  /** A run that failed part-way fails as a whole, with the same error. */
  lemma {:induction false} FoldStopsAtFailure<S, R>(s: S, reqs: seq<R>, k: nat, step: (S, R) -> Result<S>)
    requires k <= |reqs| && Fold(s, reqs[..k], step).Err?
    ensures Fold(s, reqs, step) == Fold(s, reqs[..k], step)
    decreases |reqs|
  {
    if k < |reqs| {
      var init := reqs[..|reqs| - 1];
      assert init[..k] == reqs[..k];
      FoldStopsAtFailure(s, init, k, step);
    } else {
      assert reqs[..k] == reqs;
    }
  }

  // ---------------------------------------------------------------------------
  // The AST context

  /** ASTContext: the translation units the parser produced, rewritten in place by the passes. */
  class AstContext {
    var units: seq<TranslationUnit>

    constructor (units: seq<TranslationUnit>)
      ensures this.units == units
    {
      this.units := units;
    }
  }
}
