/**
 * The generator's rule passes (MyLibrary): they run over the declaration
 * graph after parsing (Preprocess) and after the library's own passes
 * (Postprocess), ignoring, renaming, moving and flagging declarations.
 */
module MyLibrary {
  import opened Text
  import opened Ast

  // ---------------------------------------------------------------------------
  // Rule dispatch

  /** What an ignore rule selects; `OtherValue` stands for any value outside the four named ones. */
  datatype IgnoreType = ClassTarget | FunctionTarget | MethodTarget | PropertyTarget | OtherValue(value: int)

  /** One line of an ignore table; either name may be null. */
  datatype IgnoreRule = IgnoreRule(className: Option<string>, memberName: Option<string>, kind: IgnoreType)

  /** Ignore: marks the one declaration or member a rule selects as ignored. */
  function Ignore(units: seq<TranslationUnit>, className: Option<string>, memberName: Option<string>, kind: IgnoreType)
    : (r: Result<seq<TranslationUnit>>)
    ensures kind.OtherValue? ==> r == Err(ArgumentOutOfRange)
  {
    match kind
    case ClassTarget =>
      if className.None? then Err(NullName) else IgnoreDecl(units, ClassKind, className.value)
    case FunctionTarget =>
      if memberName.None? then Err(NullName) else IgnoreDecl(units, FunctionKind, memberName.value)
    case MethodTarget =>
      if className.None? || memberName.None? then Err(NullName)
      else IgnoreClassMethod(units, className.value, memberName.value)
    case PropertyTarget =>
      if className.None? then Err(NullName) else IgnoreClassProperty(units, className.value, memberName)
    case OtherValue(_) => Err(ArgumentOutOfRange)
  }

  /** The rule's selector names exactly one declaration, and exactly one member of it where it names a member. */
  ghost predicate Resolves(units: seq<TranslationUnit>, rule: IgnoreRule) {
    match rule.kind
    case ClassTarget => rule.className.Some? && UniqueDecl(units, ClassKind, rule.className.value)
    case FunctionTarget => rule.memberName.Some? && UniqueDecl(units, FunctionKind, rule.memberName.value)
    case MethodTarget =>
      rule.className.Some? && rule.memberName.Some? && UniqueDecl(units, ClassKind, rule.className.value) &&
      forall l | IsDeclOf(units, l, ClassKind, rule.className.value) :: OneMethod(DeclAt(units, l), rule.memberName.value)
    case PropertyTarget =>
      rule.className.Some? && rule.memberName.Some? && UniqueDecl(units, ClassKind, rule.className.value) &&
      forall l | IsDeclOf(units, l, ClassKind, rule.className.value) :: OneProperty(DeclAt(units, l), rule.memberName.value)
    case OtherValue(_) => false
  }

  function ApplyRule(units: seq<TranslationUnit>, rule: IgnoreRule): Result<seq<TranslationUnit>> {
    Ignore(units, rule.className, rule.memberName, rule.kind)
  }

  /** A rule applies exactly when it resolves: there is no silently skipped rule. */
  lemma IgnoreSucceedsIff(units: seq<TranslationUnit>, rule: IgnoreRule)
    ensures ApplyRule(units, rule).Ok? <==> Resolves(units, rule)
  {
    match rule.kind
    case ClassTarget =>
    case FunctionTarget =>
    case MethodTarget =>
      if rule.className.Some? && rule.memberName.Some? {
        IgnoreMethodSucceedsIff(units, rule.className.value, rule.memberName.value);
      }
    case PropertyTarget =>
      if rule.className.Some? {
        if rule.memberName.Some? {
          IgnorePropertySucceedsIff(units, rule.className.value, rule.memberName.value);
        } else {
          UnnamedPropertyFails(units, rule.className.value);
        }
      }
    case OtherValue(_) =>
  }

  /** A property rule without a property name never applies: no property has the null name. */
  lemma UnnamedPropertyFails(units: seq<TranslationUnit>, className: string)
    ensures IgnoreClassProperty(units, className, None).Err?
  {
    var f := FindDecl(units, ClassKind, className);
    if f.Found? {
      var props := DeclAt(units, f.value).properties;
      var p := (p: Property) => Some(p.name) == None;
      assert forall j | 0 <= j < |props| :: !p(props[j]);
      assert FindSingle(props, p).Missing?;
    }
  }

  lemma IgnoreMethodSucceedsIff(units: seq<TranslationUnit>, className: string, methodName: string)
    ensures IgnoreClassMethod(units, className, methodName).Ok? <==>
      UniqueDecl(units, ClassKind, className) &&
      forall l | IsDeclOf(units, l, ClassKind, className) :: OneMethod(DeclAt(units, l), methodName)
  {
    var f := FindDecl(units, ClassKind, className);
    FindDeclUnique(units, ClassKind, className);
    if f.Found? {
      var c := DeclAt(units, f.value);
      assert IgnoreClassMethod(units, className, methodName).Ok? <==>
             FindSingle(c.methods, (m: ClassMethod) => m.name == methodName).Found?;
      OneMethodFound(c, methodName);
      assert (forall l | IsDeclOf(units, l, ClassKind, className) :: OneMethod(DeclAt(units, l), methodName)) <==> OneMethod(c, methodName) by {
        assert forall l | IsDeclOf(units, l, ClassKind, className) :: l == f.value;
      }
    } else {
      assert IgnoreClassMethod(units, className, methodName).Err?;
    }
  }

  lemma IgnorePropertySucceedsIff(units: seq<TranslationUnit>, className: string, propertyName: string)
    ensures IgnoreClassProperty(units, className, Some(propertyName)).Ok? <==>
      UniqueDecl(units, ClassKind, className) &&
      forall l | IsDeclOf(units, l, ClassKind, className) :: OneProperty(DeclAt(units, l), propertyName)
  {
    var f := FindDecl(units, ClassKind, className);
    FindDeclUnique(units, ClassKind, className);
    if f.Found? {
      var c := DeclAt(units, f.value);
      assert IgnoreClassProperty(units, className, Some(propertyName)).Ok? <==>
             FindSingle(c.properties, (p: Property) => Some(p.name) == Some(propertyName)).Found?;
      OnePropertyFound(c, propertyName);
      assert (forall l | IsDeclOf(units, l, ClassKind, className) :: OneProperty(DeclAt(units, l), propertyName)) <==> OneProperty(c, propertyName) by {
        assert forall l | IsDeclOf(units, l, ClassKind, className) :: l == f.value;
      }
    } else {
      assert IgnoreClassProperty(units, className, Some(propertyName)).Err?;
    }
  }

  /** When the class is unique, the lookup lands on it, and only it is a class with that name. */
  lemma ClassMemberLookup(units: seq<TranslationUnit>, className: string)
    ensures FindDecl(units, ClassKind, className).Found? <==> UniqueDecl(units, ClassKind, className)
    ensures UniqueDecl(units, ClassKind, className) ==>
      forall l | IsDeclOf(units, l, ClassKind, className) :: l == FindDecl(units, ClassKind, className).value
  {
    FindDeclUnique(units, ClassKind, className);
  }

  lemma OnePropertyFound(c: Decl, name: string)
    requires c.Class?
    ensures FindSingle(c.properties, (p: Property) => Some(p.name) == Some(name)).Found? <==> OneProperty(c, name)
  {
    var p := (p: Property) => Some(p.name) == Some(name);
    FoundExactlyOne(c.properties, p);
    assert forall j | 0 <= j < |c.properties| :: p(c.properties[j]) == (c.properties[j].name == name);
  }

  lemma OneMethodFound(c: Decl, name: string)
    requires c.Class?
    ensures FindSingle(c.methods, (m: ClassMethod) => m.name == name).Found? <==> OneMethod(c, name)
  {
    var p := (m: ClassMethod) => m.name == name;
    FoundExactlyOne(c.methods, p);
    assert forall j | 0 <= j < |c.methods| :: p(c.methods[j]) == (c.methods[j].name == name);
  }

  /**
   * A Property rule on a class that exists exactly once ignores the one
   * property with that name and changes nothing else; it fails when no
   * property or several have that name.
   */
  lemma IgnorePropertyEffect(units: seq<TranslationUnit>, l: Loc, className: string, propertyName: string)
    requires IsDeclOf(units, l, ClassKind, className)
    requires forall l' | IsDeclOf(units, l', ClassKind, className) :: l' == l
    ensures var r := Ignore(units, Some(className), Some(propertyName), PropertyTarget);
            var c := DeclAt(units, l);
            && (r.Ok? <==> OneProperty(c, propertyName))
            && (r == Err(NoMatch(propertyName)) <==> forall j | 0 <= j < |c.properties| :: c.properties[j].name != propertyName)
            && (r.Ok? ==> && SameShape(r.value, units)
                          && DeclAt(r.value, l) == c.(properties := IgnoredNamed(c.properties, propertyName))
                          && forall l' | ValidLoc(units, l') && l' != l :: DeclAt(r.value, l') == DeclAt(units, l'))
  {
    var c := DeclAt(units, l);
    assert FindDecl(units, ClassKind, className) == Found(l);
    var r := Ignore(units, Some(className), Some(propertyName), PropertyTarget);
    var ps := FindSingle(c.properties, (p: Property) => Some(p.name) == Some(propertyName));
    assert r.Ok? <==> ps.Found?;
    OnePropertyFound(c, propertyName);
    if ps.Found? {
      var j := ps.value;
      assert c.properties[j := c.properties[j].(ignored := true)] == IgnoredNamed(c.properties, propertyName);
    } else {
      assert r == Err(if ps.Missing? then NoMatch(propertyName) else MoreThanOneMatch(propertyName));
    }
  }

  /**
   * A Method rule on a class that exists exactly once ignores the one
   * method with that name and changes nothing else; it fails when no
   * method or several have that name.
   */
  lemma IgnoreMethodEffect(units: seq<TranslationUnit>, l: Loc, className: string, methodName: string)
    requires IsDeclOf(units, l, ClassKind, className)
    requires forall l' | IsDeclOf(units, l', ClassKind, className) :: l' == l
    ensures var r := Ignore(units, Some(className), Some(methodName), MethodTarget);
            var c := DeclAt(units, l);
            && (r.Ok? <==> OneMethod(c, methodName))
            && (r == Err(NoMatch(methodName)) <==> forall j | 0 <= j < |c.methods| :: c.methods[j].name != methodName)
            && (r.Ok? ==> && SameShape(r.value, units)
                          && DeclAt(r.value, l) == c.(methods := IgnoredMethodsNamed(c.methods, methodName))
                          && forall l' | ValidLoc(units, l') && l' != l :: DeclAt(r.value, l') == DeclAt(units, l'))
  {
    var c := DeclAt(units, l);
    assert FindDecl(units, ClassKind, className) == Found(l);
    var r := Ignore(units, Some(className), Some(methodName), MethodTarget);
    var ms := FindSingle(c.methods, (m: ClassMethod) => m.name == methodName);
    assert r.Ok? <==> ms.Found?;
    OneMethodFound(c, methodName);
    if ms.Found? {
      var j := ms.value;
      assert c.methods[j := c.methods[j].(ignored := true)] == IgnoredMethodsNamed(c.methods, methodName);
    } else {
      assert r == Err(if ms.Missing? then NoMatch(methodName) else MoreThanOneMatch(methodName));
    }
  }

  /** Ignoring sets flags only: every name a lookup can see stays as it was. */
  lemma IgnoreKeepsNames(units: seq<TranslationUnit>, rule: IgnoreRule)
    ensures ApplyRule(units, rule).Ok? ==> SameNames(ApplyRule(units, rule).value, units)
  {
    var r := ApplyRule(units, rule);
    if r.Ok? {
      var c := rule.className;
      var m := rule.memberName;
      match rule.kind
      case ClassTarget =>
        var l := FindDecl(units, ClassKind, c.value).value;
        SetDeclKeepsNames(units, l, MarkIgnored(DeclAt(units, l)));
      case FunctionTarget =>
        var l := FindDecl(units, FunctionKind, m.value).value;
        SetDeclKeepsNames(units, l, MarkIgnored(DeclAt(units, l)));
      case MethodTarget =>
        var l := FindDecl(units, ClassKind, c.value).value;
        var d := DeclAt(units, l);
        var j := FindSingle(d.methods, (x: ClassMethod) => x.name == m.value).value;
        SetDeclKeepsNames(units, l, d.(methods := d.methods[j := d.methods[j].(ignored := true)]));
      case PropertyTarget =>
        var l := FindDecl(units, ClassKind, c.value).value;
        var d := DeclAt(units, l);
        var j := FindSingle(d.properties, (p: Property) => Some(p.name) == m).value;
        SetDeclKeepsNames(units, l, d.(properties := d.properties[j := d.properties[j].(ignored := true)]));
    }
  }

  /** Whether a rule resolves depends only on names, which ignoring never changes. */
  lemma ResolvesSameNames(a: seq<TranslationUnit>, b: seq<TranslationUnit>, rule: IgnoreRule)
    requires SameNames(a, b)
    ensures Resolves(a, rule) <==> Resolves(b, rule)
  {
    if rule.className.Some? {
      var c := rule.className.value;
      UniqueDeclSameNames(a, b, ClassKind, c);
      if UniqueDecl(a, ClassKind, c) && rule.memberName.Some? {
        var m := rule.memberName.value;
        FindDeclUnique(a, ClassKind, c);
        var l := FindDecl(a, ClassKind, c).value;
        assert forall l' | IsDeclOf(a, l', ClassKind, c) :: l' == l;
        assert forall l' | IsDeclOf(b, l', ClassKind, c) :: l' == l;
        OneMemberSameSignature(DeclAt(a, l), DeclAt(b, l), m);
      }
    }
    if rule.memberName.Some? {
      UniqueDeclSameNames(a, b, FunctionKind, rule.memberName.value);
    }
  }

  lemma UniqueDeclSameNames(a: seq<TranslationUnit>, b: seq<TranslationUnit>, kind: Kind, name: string)
    requires SameNames(a, b)
    ensures UniqueDecl(a, kind, name) <==> UniqueDecl(b, kind, name)
    ensures forall l :: IsDeclOf(a, l, kind, name) <==> IsDeclOf(b, l, kind, name)
  {
    forall l ensures IsDeclOf(a, l, kind, name) <==> IsDeclOf(b, l, kind, name) {
      if ValidLoc(a, l) {
        assert SameSignature(DeclAt(a, l), DeclAt(b, l));
      }
    }
  }

  /** Classes with the same member names have the same members named exactly once. */
  lemma OneMemberSameSignature(da: Decl, db: Decl, m: string)
    requires da.Class? && SameSignature(da, db)
    ensures db.Class?
    ensures OneProperty(da, m) <==> OneProperty(db, m)
    ensures OneMethod(da, m) <==> OneMethod(db, m)
  {
    OnePropertyTransfer(da, db, m);
    OnePropertyTransfer(db, da, m);
    OneMethodTransfer(da, db, m);
    OneMethodTransfer(db, da, m);
  }

  lemma OnePropertyTransfer(da: Decl, db: Decl, m: string)
    requires da.Class? && db.Class? && |da.properties| == |db.properties|
    requires forall j | 0 <= j < |da.properties| :: da.properties[j].name == db.properties[j].name
    ensures OneProperty(da, m) ==> OneProperty(db, m)
  {
    if OneProperty(da, m) {
      var j :| 0 <= j < |da.properties| && da.properties[j].name == m &&
        forall j' | 0 <= j' < |da.properties| && da.properties[j'].name == m :: j' == j;
      assert db.properties[j].name == m;
    }
  }

  lemma OneMethodTransfer(da: Decl, db: Decl, m: string)
    requires da.Class? && db.Class? && |da.methods| == |db.methods|
    requires forall j | 0 <= j < |da.methods| :: da.methods[j].name == db.methods[j].name
    ensures OneMethod(da, m) ==> OneMethod(db, m)
  {
    if OneMethod(da, m) {
      var j :| 0 <= j < |da.methods| && da.methods[j].name == m &&
        forall j' | 0 <= j' < |da.methods| && da.methods[j'].name == m :: j' == j;
      assert db.methods[j].name == m;
    }
  }

  // ---------------------------------------------------------------------------
  // Ignore tables

  /** The rules applied in table order; the first one that does not resolve ends the pass. */
  function IgnoreAll(units: seq<TranslationUnit>, rules: seq<IgnoreRule>): Result<seq<TranslationUnit>> {
    Fold(units, rules, ApplyRule)
  }

  /** A non-empty table is its shorter prefix followed by its last rule. */
  lemma IgnoreAllSnoc(units: seq<TranslationUnit>, rules: seq<IgnoreRule>)
    requires rules != []
    ensures var prev := IgnoreAll(units, rules[..|rules| - 1]);
            IgnoreAll(units, rules) == if prev.Ok? then ApplyRule(prev.value, rules[|rules| - 1]) else prev
  {
  }

  lemma SameNamesTrans(a: seq<TranslationUnit>, b: seq<TranslationUnit>, c: seq<TranslationUnit>)
    requires SameNames(a, b) && SameNames(b, c)
    ensures SameNames(a, c)
  {
    forall l | ValidLoc(a, l)
      ensures SameSignature(DeclAt(a, l), DeclAt(c, l))
    {
      assert SameSignature(DeclAt(a, l), DeclAt(b, l));
      assert SameSignature(DeclAt(b, l), DeclAt(c, l));
    }
  }

  /** Applying a table never changes a name a lookup can see. */
  lemma {:induction false} IgnoreAllKeepsNames(units: seq<TranslationUnit>, rules: seq<IgnoreRule>)
    ensures IgnoreAll(units, rules).Ok? ==> SameNames(IgnoreAll(units, rules).value, units)
    decreases |rules|
  {
    if rules != [] {
      var init := rules[..|rules| - 1];
      IgnoreAllSnoc(units, rules);
      IgnoreAllKeepsNames(units, init);
      var prev := IgnoreAll(units, init);
      if prev.Ok? {
        IgnoreKeepsNames(prev.value, rules[|rules| - 1]);
        if IgnoreAll(units, rules).Ok? {
          SameNamesTrans(IgnoreAll(units, rules).value, prev.value, units);
        }
      }
    }
  }

  ghost predicate AllResolve(units: seq<TranslationUnit>, rules: seq<IgnoreRule>) {
    forall k | 0 <= k < |rules| :: Resolves(units, rules[k])
  }

  lemma AllResolveSnoc(units: seq<TranslationUnit>, rules: seq<IgnoreRule>)
    requires rules != []
    ensures AllResolve(units, rules) <==>
            AllResolve(units, rules[..|rules| - 1]) && Resolves(units, rules[|rules| - 1])
  {
    var init := rules[..|rules| - 1];
    if AllResolve(units, rules) {
      forall k | 0 <= k < |init|
        ensures Resolves(units, init[k])
      {
        assert init[k] == rules[k];
      }
    }
    if AllResolve(units, init) && Resolves(units, rules[|rules| - 1]) {
      forall k | 0 <= k < |rules|
        ensures Resolves(units, rules[k])
      {
        if k < |init| {
          assert rules[k] == init[k];
        }
      }
    }
  }

  /**
   * A table applies exactly when every one of its rules resolves against the
   * graph as it was before the table ran: no rule is skipped, and no rule
   * sees a graph its predecessors changed in a way that matters to it.
   */
  lemma {:induction false} IgnoreAllResolves(units: seq<TranslationUnit>, rules: seq<IgnoreRule>)
    ensures IgnoreAll(units, rules).Ok? <==> AllResolve(units, rules)
    decreases |rules|
  {
    if rules != [] {
      var init := rules[..|rules| - 1];
      var last := rules[|rules| - 1];
      IgnoreAllSnoc(units, rules);
      IgnoreAllResolves(units, init);
      var prev := IgnoreAll(units, init);
      AllResolveSnoc(units, rules);
      if prev.Ok? {
        IgnoreAllKeepsNames(units, init);
        IgnoreSucceedsIff(prev.value, last);
        ResolvesSameNames(prev.value, units, last);
      }
    }
  }

  /** Applies the rules of a table in order, stopping at the first one that fails. */
  method ApplyIgnoreRules(ctx: AstContext, rules: seq<IgnoreRule>) returns (outcome: Outcome)
    modifies ctx
    ensures outcome == OutcomeOf(IgnoreAll(old(ctx.units), rules))
    ensures outcome.Pass? ==> ctx.units == IgnoreAll(old(ctx.units), rules).value
  {
    ghost var start := ctx.units;
    var k := 0;
    while k < |rules|
      invariant 0 <= k <= |rules|
      invariant IgnoreAll(start, rules[..k]) == Ok(ctx.units)
    {
      var r := ApplyRule(ctx.units, rules[k]);
      IgnoreAllSnoc(start, rules[..k + 1]);
      assert rules[..k + 1][..k] == rules[..k] && rules[..k + 1][k] == rules[k];
      if r.Err? {
        FoldStopsAtFailure(start, rules, k + 1, ApplyRule);
        return Fail(r.error);
      }
      ctx.units := r.value;
      k := k + 1;
    }
    assert rules[..k] == rules;
    return Pass;
  }

  function ClassRule(className: string): IgnoreRule {
    IgnoreRule(Some(className), None, ClassTarget)
  }

  function MethodRule(className: string, methodName: string): IgnoreRule {
    IgnoreRule(Some(className), Some(methodName), MethodTarget)
  }

  function PropertyRule(className: string, propertyName: string): IgnoreRule {
    IgnoreRule(Some(className), Some(propertyName), PropertyTarget)
  }

  /** Declarations replaced by hand-written code or unused, ignored before generation. */
  const PreprocessIgnoreRules: seq<IgnoreRule> := [
    ClassRule("ImColor"),
    MethodRule("ImDrawCmd", "GetTexID"),
    MethodRule("ImDrawList", "GetClipRectMax"),
    MethodRule("ImDrawList", "GetClipRectMin"),
    ClassRule("ImDrawVert"),
    MethodRule("ImFont", "GetDebugName"),
    MethodRule("ImFont", "IsLoaded"),
    ClassRule("ImVec2"),
    ClassRule("ImVec4"),
    ClassRule("ImVector"),
    IgnoreRule(None, Some("IM_DELETE"), FunctionTarget)
  ]

  /** Members that are internal or written by hand, ignored after the library's passes. */
  const PostprocessIgnoreRules: seq<IgnoreRule> := [
    PropertyRule("ImDrawData", "CmdLists"),
    PropertyRule("ImDrawList", "ClipRectStack"),
    PropertyRule("ImDrawList", "CmdHeader"),
    PropertyRule("ImDrawList", "FringeScale"),
    PropertyRule("ImDrawList", "IdxWritePtr"),
    PropertyRule("ImDrawList", "Path"),
    PropertyRule("ImDrawList", "Splitter"),
    PropertyRule("ImDrawList", "TextureIdStack"),
    PropertyRule("ImDrawList", "VtxCurrentIdx"),
    PropertyRule("ImDrawList", "VtxWritePtr"),
    PropertyRule("ImFontAtlas", "IsBuilt"),
    MethodRule("ImFontAtlas", "SetTexID"),
    PropertyRule("ImFontAtlas", "TexUvLines"),
    PropertyRule("ImGuiIO", "MouseClickedPos"),
    PropertyRule("ImGuiStyle", "Colors"),
    ClassRule("ImVectorExtensions")
  ]

  method PreprocessIgnores(ctx: AstContext) returns (outcome: Outcome)
    modifies ctx
    ensures outcome == OutcomeOf(IgnoreAll(old(ctx.units), PreprocessIgnoreRules))
    ensures outcome.Pass? ==> ctx.units == IgnoreAll(old(ctx.units), PreprocessIgnoreRules).value
  {
    outcome := ApplyIgnoreRules(ctx, PreprocessIgnoreRules);
  }

  method PostprocessIgnores(ctx: AstContext) returns (outcome: Outcome)
    modifies ctx
    ensures outcome == OutcomeOf(IgnoreAll(old(ctx.units), PostprocessIgnoreRules))
    ensures outcome.Pass? ==> ctx.units == IgnoreAll(old(ctx.units), PostprocessIgnoreRules).value
  {
    outcome := ApplyIgnoreRules(ctx, PostprocessIgnoreRules);
  }

  // ---------------------------------------------------------------------------
  // The translation unit of imgui.h

  const ImGuiHeader := "imgui.h"

  /** GetImGuiTranslationUnit: the index of the one unit parsed from imgui.h. */
  function GetImGuiTranslationUnit(units: seq<TranslationUnit>): (r: Result<nat>)
    ensures r.Ok? ==> r.value < |units| && units[r.value].fileName == ImGuiHeader
    ensures r.Ok? ==> forall t | 0 <= t < |units| && units[t].fileName == ImGuiHeader :: t == r.value
    ensures r == Err(NoMatch(ImGuiHeader)) <==> forall t | 0 <= t < |units| :: units[t].fileName != ImGuiHeader
    ensures r == Err(MoreThanOneMatch(ImGuiHeader)) <==>
      exists t, t' | 0 <= t < t' < |units| :: units[t].fileName == ImGuiHeader && units[t'].fileName == ImGuiHeader
  {
    Single(FindSingle(units, (u: TranslationUnit) => u.fileName == ImGuiHeader), ImGuiHeader)
  }

  // ---------------------------------------------------------------------------
  // PreprocessEnumerations

  const PrivateSuffix := "Private_"

  /** An item that only marks a range or a count: its name ends with one of the five sentinel suffixes. */
  predicate IsSentinel(name: string) {
    EndsWith(name, "_BEGIN") || EndsWith(name, "_END") || EndsWith(name, "_COUNT") ||
    EndsWith(name, "_SIZE") || EndsWith(name, "_OFFSET")
  }

  /**
   * What the pass does to one declaration directly inside a unit: an
   * enumeration named ...Private_ is ignored as a whole with its items left
   * alone; in any other enumeration every sentinel item is ignored, and
   * every other item keeps the flag it had.
   */
  function NormalizeEnumeration(d: Decl): (r: Decl)
    ensures !d.Enumeration? ==> r == d
    ensures d.Enumeration? && EndsWith(d.name, PrivateSuffix) ==> r == MarkIgnored(d) && r.items == d.items
    ensures d.Enumeration? && !EndsWith(d.name, PrivateSuffix) ==>
      && r.Enumeration? && r.name == d.name && r.parent == d.parent && r.ignored == d.ignored && r.isFlags == d.isFlags
      && |r.items| == |d.items|
      && forall k | 0 <= k < |d.items| ::
           r.items[k].name == d.items[k].name &&
           (r.items[k].ignored <==> d.items[k].ignored || IsSentinel(d.items[k].name))
  {
    if !d.Enumeration? then d
    else if EndsWith(d.name, PrivateSuffix) then MarkIgnored(d)
    else d.(items := seq(|d.items|, k requires 0 <= k < |d.items| =>
                           if IsSentinel(d.items[k].name) then d.items[k].(ignored := true) else d.items[k]))
  }

  function NormalizeUnit(unit: TranslationUnit): (r: TranslationUnit)
    ensures r.fileName == unit.fileName && |r.decls| == |unit.decls|
    ensures forall k | 0 <= k < |unit.decls| :: r.decls[k] == NormalizeEnumeration(unit.decls[k])
  {
    unit.(decls := seq(|unit.decls|, k requires 0 <= k < |unit.decls| => NormalizeEnumeration(unit.decls[k])))
  }

  function PreprocessEnumerationsSpec(units: seq<TranslationUnit>): Result<seq<TranslationUnit>> {
    var a :- IgnoreDecl(units, EnumerationKind, "ImGuiModFlags_");
    var b :- IgnoreDecl(a, EnumerationKind, "ImGuiNavInput_");
    Ok(seq(|b|, u requires 0 <= u < |b| => NormalizeUnit(b[u])))
  }

  /**
   * PreprocessEnumerations: ignores two named enumerations, then visits every
   * enumeration directly inside a unit (those nested in a namespace are not
   * visited) and applies NormalizeEnumeration to it in place.
   */
  method PreprocessEnumerations(ctx: AstContext) returns (outcome: Outcome)
    modifies ctx
    ensures outcome == OutcomeOf(PreprocessEnumerationsSpec(old(ctx.units)))
    ensures outcome.Pass? ==> ctx.units == PreprocessEnumerationsSpec(old(ctx.units)).value
  {
    var r := IgnoreDecl(ctx.units, EnumerationKind, "ImGuiModFlags_");
    if r.Err? {
      return Fail(r.error);
    }
    ctx.units := r.value;
    r := IgnoreDecl(ctx.units, EnumerationKind, "ImGuiNavInput_");
    if r.Err? {
      return Fail(r.error);
    }
    ctx.units := r.value;
    NormalizeEnumerations(ctx);
    return Pass;
  }

  /** The loop over every enumeration directly inside a unit. */
  method NormalizeEnumerations(ctx: AstContext)
    modifies ctx
    ensures ctx.units == seq(|old(ctx.units)|, v requires 0 <= v < |old(ctx.units)| => NormalizeUnit(old(ctx.units)[v]))
  {
    ghost var start := ctx.units;
    var u := 0;
    while u < |ctx.units|
      invariant 0 <= u <= |ctx.units| == |start|
      invariant forall v | 0 <= v < |start| :: ctx.units[v] == if v < u then NormalizeUnit(start[v]) else start[v]
    {
      var i := 0;
      while i < |ctx.units[u].decls|
        invariant |ctx.units| == |start|
        invariant 0 <= i <= |ctx.units[u].decls| == |start[u].decls|
        invariant ctx.units[u].fileName == start[u].fileName
        invariant forall v | 0 <= v < |start| && v != u :: ctx.units[v] == if v < u then NormalizeUnit(start[v]) else start[v]
        invariant forall k | 0 <= k < |start[u].decls| ::
          ctx.units[u].decls[k] == if k < i then NormalizeEnumeration(start[u].decls[k]) else start[u].decls[k]
      {
        var d := ctx.units[u].decls[i];
        if d.Enumeration? {
          if EndsWith(d.name, PrivateSuffix) {
            ctx.units := SetDecl(ctx.units, Loc(u, i), MarkIgnored(d));
          } else {
            var items := IgnoreSentinelItems(d.items);
            ctx.units := SetDecl(ctx.units, Loc(u, i), d.(items := items));
          }
        }
        i := i + 1;
      }
      assert ctx.units[u] == NormalizeUnit(start[u]);
      u := u + 1;
    }
  }

  /** The loop over one enumeration's items: five suffix tests, each of which may ignore the item. */
  method IgnoreSentinelItems(items: seq<EnumItem>) returns (result: seq<EnumItem>)
    ensures |result| == |items|
    ensures forall m | 0 <= m < |items| ::
      result[m] == if IsSentinel(items[m].name) then items[m].(ignored := true) else items[m]
  {
    result := items;
    var k := 0;
    while k < |result|
      invariant 0 <= k <= |result| == |items|
      invariant forall m | 0 <= m < |items| ::
        result[m] == if m < k && IsSentinel(items[m].name) then items[m].(ignored := true) else items[m]
    {
      var item := result[k];
      var name := item.name;
      if EndsWith(name, "_BEGIN") {
        item := item.(ignored := true);
      }
      if EndsWith(name, "_END") {
        item := item.(ignored := true);
      }
      if EndsWith(name, "_COUNT") {
        item := item.(ignored := true);
      }
      if EndsWith(name, "_SIZE") {
        item := item.(ignored := true);
      }
      if EndsWith(name, "_OFFSET") {
        item := item.(ignored := true);
      }
      result := result[k := item];
      k := k + 1;
    }
  }

  // ---------------------------------------------------------------------------
  // PreprocessNamespace

  /** Declarations.Clear() on a namespace. */
  function Emptied(ns: Decl): (r: Decl)
    requires ns.Namespace?
    ensures r.Namespace? && r.name == ns.name && r.parent == ns.parent && r.decls == []
  {
    ns.(decls := [])
  }

  /**
   * PreprocessNamespace, on values: the one namespace directly inside the
   * imgui.h unit is emptied and its former children are appended to the unit.
   */
  function FlattenNamespace(units: seq<TranslationUnit>): Result<seq<TranslationUnit>> {
    var t :- GetImGuiTranslationUnit(units);
    var unit := units[t];
    var n :- Single(FindSingle(unit.decls, (d: Decl) => d.Namespace?), "Namespace");
    var ns := unit.decls[n];
    Ok(units[t := unit.(decls := unit.decls[n := Emptied(ns)] + ns.decls)])
  }

  /**
   * With exactly one namespace in the imgui.h unit, flattening succeeds; the
   * namespace node stays where it was but is empty, its children follow the
   * unit's old declarations in their order with their parent field as it
   * was, every other declaration and unit is unchanged, and no declaration
   * is lost or duplicated.
   */
  lemma FlattenNamespaceEffect(units: seq<TranslationUnit>, t: nat, n: nat)
    requires t < |units| && units[t].fileName == ImGuiHeader
    requires forall t' | 0 <= t' < |units| && units[t'].fileName == ImGuiHeader :: t' == t
    requires n < |units[t].decls| && units[t].decls[n].Namespace?
    requires forall k | 0 <= k < |units[t].decls| && units[t].decls[k].Namespace? :: k == n
    ensures FlattenNamespace(units).Ok?
    ensures var r := FlattenNamespace(units).value;
            var before := units[t].decls;
            var ns := before[n];
            var after := r[t].decls;
            && |r| == |units|
            && (forall u | 0 <= u < |units| && u != t :: r[u] == units[u])
            && r[t].fileName == ImGuiHeader
            && |after| == |before| + |ns.decls|
            && after[n].Namespace? && after[n].name == ns.name && after[n].decls == []
            && (forall k | 0 <= k < |before| && k != n :: after[k] == before[k])
            && (forall k | 0 <= k < |ns.decls| :: after[|before| + k] == ns.decls[k])
            && DeclCount(after) == DeclCount(before)
  {
    var before := units[t].decls;
    var ns := before[n];
    assert FindSingle(before, (d: Decl) => d.Namespace?) == Found(n);
    var after := before[n := Emptied(ns)] + ns.decls;
    DeclCountAppend(before[n := Emptied(ns)], ns.decls);
    DeclCountUpdate(before, n, Emptied(ns));
    assert [ns][1..] == [] && [Emptied(ns)][1..] == [];
  }

  /** Flattening fails unless the imgui.h unit holds exactly one namespace. */
  lemma FlattenNamespaceNeedsOne(units: seq<TranslationUnit>, t: nat)
    requires t < |units| && units[t].fileName == ImGuiHeader
    requires forall t' | 0 <= t' < |units| && units[t'].fileName == ImGuiHeader :: t' == t
    ensures FlattenNamespace(units) == Err(NoMatch("Namespace")) <==>
      forall k | 0 <= k < |units[t].decls| :: !units[t].decls[k].Namespace?
    ensures FlattenNamespace(units) == Err(MoreThanOneMatch("Namespace")) <==>
      exists k, k' | 0 <= k < k' < |units[t].decls| :: units[t].decls[k].Namespace? && units[t].decls[k'].Namespace?
  {
    assert GetImGuiTranslationUnit(units) == Ok(t);
  }

  method PreprocessNamespace(ctx: AstContext) returns (outcome: Outcome)
    modifies ctx
    ensures outcome == OutcomeOf(FlattenNamespace(old(ctx.units)))
    ensures outcome.Pass? ==> ctx.units == FlattenNamespace(old(ctx.units)).value
  {
    var t := GetImGuiTranslationUnit(ctx.units);
    if t.Err? {
      return Fail(t.error);
    }
    var unit := ctx.units[t.value];
    var n := Single(FindSingle(unit.decls, (d: Decl) => d.Namespace?), "Namespace");
    if n.Err? {
      return Fail(n.error);
    }
    var ns := unit.decls[n.value];
    var declarations := ns.decls;
    unit := unit.(decls := unit.decls[n.value := Emptied(ns)]);
    unit := unit.(decls := unit.decls + declarations);
    ctx.units := ctx.units[t.value := unit];
    return Pass;
  }

  // ---------------------------------------------------------------------------
  // PreprocessValueTypes

  function SetValueTypes(units: seq<TranslationUnit>): Result<seq<TranslationUnit>> {
    var a :- SetClassAsValueType(units, "ImDrawVert");
    var b :- SetClassAsValueType(a, "ImVec2");
    SetClassAsValueType(b, "ImVec4")
  }

  /** The position holds one of the three classes that become value types. */
  predicate IsValueTypeTarget(units: seq<TranslationUnit>, l: Loc) {
    IsDeclOf(units, l, ClassKind, "ImDrawVert") || IsDeclOf(units, l, ClassKind, "ImVec2") ||
    IsDeclOf(units, l, ClassKind, "ImVec4")
  }

  /**
   * The pass succeeds exactly when each of ImDrawVert, ImVec2 and ImVec4 is
   * one class; then those three become value types and nothing else changes.
   */
  lemma SetValueTypesEffect(units: seq<TranslationUnit>)
    ensures SetValueTypes(units).Ok? <==>
      UniqueDecl(units, ClassKind, "ImDrawVert") && UniqueDecl(units, ClassKind, "ImVec2") &&
      UniqueDecl(units, ClassKind, "ImVec4")
    ensures SetValueTypes(units).Ok? ==>
      var r := SetValueTypes(units).value;
      SameShape(r, units) &&
      forall l | ValidLoc(units, l) ::
        DeclAt(r, l) == if IsValueTypeTarget(units, l) then DeclAt(units, l).(isValueType := true) else DeclAt(units, l)
  {
    var a := SetClassAsValueType(units, "ImDrawVert");
    if a.Ok? {
      ValueTypeKeepsNames(units, "ImDrawVert");
      UniqueDeclSameNames(a.value, units, ClassKind, "ImVec2");
      UniqueDeclSameNames(a.value, units, ClassKind, "ImVec4");
      var b := SetClassAsValueType(a.value, "ImVec2");
      if b.Ok? {
        ValueTypeKeepsNames(a.value, "ImVec2");
        UniqueDeclSameNames(b.value, a.value, ClassKind, "ImVec4");
        var c := SetClassAsValueType(b.value, "ImVec4");
        if c.Ok? {
          ValueTypesPointwise(units, a.value, b.value, c.value);
        }
      }
    }
  }

  lemma ValueTypesPointwise(units: seq<TranslationUnit>, a: seq<TranslationUnit>, b: seq<TranslationUnit>, c: seq<TranslationUnit>)
    requires SameShape(a, units) && SameShape(b, a) && SameShape(c, b)
    requires forall l | ValidLoc(units, l) ::
      DeclAt(a, l) == if IsDeclOf(units, l, ClassKind, "ImDrawVert") then DeclAt(units, l).(isValueType := true) else DeclAt(units, l)
    requires forall l | ValidLoc(a, l) ::
      DeclAt(b, l) == if IsDeclOf(a, l, ClassKind, "ImVec2") then DeclAt(a, l).(isValueType := true) else DeclAt(a, l)
    requires forall l | ValidLoc(b, l) ::
      DeclAt(c, l) == if IsDeclOf(b, l, ClassKind, "ImVec4") then DeclAt(b, l).(isValueType := true) else DeclAt(b, l)
    requires forall l :: IsDeclOf(a, l, ClassKind, "ImVec2") <==> IsDeclOf(units, l, ClassKind, "ImVec2")
    requires forall l :: IsDeclOf(a, l, ClassKind, "ImVec4") <==> IsDeclOf(units, l, ClassKind, "ImVec4")
    requires forall l :: IsDeclOf(b, l, ClassKind, "ImVec4") <==> IsDeclOf(a, l, ClassKind, "ImVec4")
    ensures SameShape(c, units)
    ensures forall l | ValidLoc(units, l) ::
      DeclAt(c, l) == if IsValueTypeTarget(units, l) then DeclAt(units, l).(isValueType := true) else DeclAt(units, l)
  {
    forall l | ValidLoc(units, l)
      ensures DeclAt(c, l) == if IsValueTypeTarget(units, l) then DeclAt(units, l).(isValueType := true) else DeclAt(units, l)
    {
      ValueTypeAt(units, a, b, c, l);
    }
  }

  /** The three steps seen at one position. */
  lemma ValueTypeAt(units: seq<TranslationUnit>, a: seq<TranslationUnit>, b: seq<TranslationUnit>, c: seq<TranslationUnit>, l: Loc)
    requires ValidLoc(units, l) && ValidLoc(a, l) && ValidLoc(b, l) && ValidLoc(c, l)
    requires DeclAt(a, l) == if IsDeclOf(units, l, ClassKind, "ImDrawVert") then DeclAt(units, l).(isValueType := true) else DeclAt(units, l)
    requires DeclAt(b, l) == if IsDeclOf(a, l, ClassKind, "ImVec2") then DeclAt(a, l).(isValueType := true) else DeclAt(a, l)
    requires DeclAt(c, l) == if IsDeclOf(b, l, ClassKind, "ImVec4") then DeclAt(b, l).(isValueType := true) else DeclAt(b, l)
    requires IsDeclOf(a, l, ClassKind, "ImVec2") <==> IsDeclOf(units, l, ClassKind, "ImVec2")
    requires IsDeclOf(b, l, ClassKind, "ImVec4") <==> IsDeclOf(units, l, ClassKind, "ImVec4")
    ensures DeclAt(c, l) == if IsValueTypeTarget(units, l) then DeclAt(units, l).(isValueType := true) else DeclAt(units, l)
  {
  }

  /** Making a class a value type keeps every name a lookup can see. */
  lemma ValueTypeKeepsNames(units: seq<TranslationUnit>, name: string)
    ensures SetClassAsValueType(units, name).Ok? ==> SameNames(SetClassAsValueType(units, name).value, units)
  {
    if SetClassAsValueType(units, name).Ok? {
      var l := FindDecl(units, ClassKind, name).value;
      SetDeclKeepsNames(units, l, DeclAt(units, l).(isValueType := true));
    }
  }

  method PreprocessValueTypes(ctx: AstContext) returns (outcome: Outcome)
    modifies ctx
    ensures outcome == OutcomeOf(SetValueTypes(old(ctx.units)))
    ensures outcome.Pass? ==> ctx.units == SetValueTypes(old(ctx.units)).value
  {
    var r := SetClassAsValueType(ctx.units, "ImDrawVert");
    if r.Err? {
      return Fail(r.error);
    }
    ctx.units := r.value;
    r := SetClassAsValueType(ctx.units, "ImVec2");
    if r.Err? {
      return Fail(r.error);
    }
    ctx.units := r.value;
    r := SetClassAsValueType(ctx.units, "ImVec4");
    if r.Err? {
      return Fail(r.error);
    }
    ctx.units := r.value;
    return Pass;
  }

  // ---------------------------------------------------------------------------
  // PostprocessDelegates

  /** Assigning a declaration's Name. */
  function WithName(d: Decl, name: string): (r: Decl)
    ensures KindOf(r) == KindOf(d) && r.name == name && r.parent == d.parent
  {
    d.(name := name)
  }

  /** Assigning a declaration's Namespace. */
  function WithParent(d: Decl, parent: Scope): (r: Decl)
    ensures KindOf(r) == KindOf(d) && r.name == d.name && r.parent == parent
  {
    d.(parent := parent)
  }

  datatype Rename = Rename(from: string, to: string)

  /** The generated delegate names and the handler names they are given, in source order. */
  const DelegateRenames: seq<Rename> := [
    Rename("Func___IntPtr___IntPtr", "ImGetClipboardTextHandler"),
    Rename("Action___IntPtr_string8", "ImSetClipboardTextHandler"),
    Rename("Action___IntPtr___IntPtr", "ImSetPlatformImeDataHandler"),
    Rename("Func_bool___IntPtr_int_sbytePtrPtr", "ImItemsGetterHandler"),
    Rename("Func_float___IntPtr_int", "ImValuesGetterHandler")
  ]

  const DelegatesName := "Delegates"

  /** ns.FindTypedef(from).Name = to: the one typedef named `from` is renamed. */
  function RenameTypedef(decls: seq<Decl>, rename: Rename): Result<seq<Decl>> {
    var i :- Single(FindSingle(decls, (d: Decl) => d.Typedef? && d.name == rename.from), rename.from);
    Ok(decls[i := WithName(decls[i], rename.to)])
  }

  function RenameAll(decls: seq<Decl>, renames: seq<Rename>): Result<seq<Decl>> {
    Fold(decls, renames, RenameTypedef)
  }

  /** The new name the renames give to `name`, if one of them starts from it (the last such one). */
  function Target(name: string, renames: seq<Rename>): (r: Option<string>)
    ensures r.None? <==> forall k | 0 <= k < |renames| :: renames[k].from != name
    ensures r.Some? ==> exists k | 0 <= k < |renames| :: renames[k].from == name && renames[k].to == r.value
    decreases |renames|
  {
    if renames == [] then None
    else if renames[|renames| - 1].from == name then Some(renames[|renames| - 1].to)
    else
      var init := renames[..|renames| - 1];
      assert forall k | 0 <= k < |init| :: init[k] == renames[k];
      Target(name, init)
  }

  /** A declaration after the renames: a typedef whose name a rename starts from gets the new name. */
  function Renamed(d: Decl, renames: seq<Rename>): Decl {
    if d.Typedef? && Target(d.name, renames).Some? then WithName(d, Target(d.name, renames).value) else d
  }

  /** No two renames start from the same name, and no new name is a name some rename starts from. */
  predicate Unambiguous(renames: seq<Rename>) {
    (forall i, j | 0 <= i < j < |renames| :: renames[i].from != renames[j].from) &&
    (forall i, j | 0 <= i < |renames| && 0 <= j < |renames| :: renames[i].to != renames[j].from)
  }

  /** Exactly one of the declarations is a typedef with that name. */
  ghost predicate OneTypedef(decls: seq<Decl>, name: string) {
    exists k | 0 <= k < |decls| :: decls[k].Typedef? && decls[k].name == name &&
      forall k' | 0 <= k' < |decls| && decls[k'].Typedef? && decls[k'].name == name :: k' == k
  }

  lemma OneTypedefFound(decls: seq<Decl>, name: string)
    ensures FindSingle(decls, (d: Decl) => d.Typedef? && d.name == name).Found? <==> OneTypedef(decls, name)
  {
    var p := (d: Decl) => d.Typedef? && d.name == name;
    if OneTypedef(decls, name) {
      var k :| 0 <= k < |decls| && decls[k].Typedef? && decls[k].name == name &&
        forall k' | 0 <= k' < |decls| && decls[k'].Typedef? && decls[k'].name == name :: k' == k;
      FindSingleOnly(decls, p, k);
    }
    var r := FindSingle(decls, p);
    if r.Found? {
      forall k' | 0 <= k' < |decls| && decls[k'].Typedef? && decls[k'].name == name ensures k' == r.value {
        assert p(decls[k']);
      }
    }
  }

  ghost predicate AllOneTypedef(decls: seq<Decl>, renames: seq<Rename>) {
    forall k | 0 <= k < |renames| :: OneTypedef(decls, renames[k].from)
  }

  /** `cur` is `decls` with every typedef a rename starts from renamed. */
  predicate RenamedAll(decls: seq<Decl>, cur: seq<Decl>, renames: seq<Rename>) {
    |cur| == |decls| && forall i | 0 <= i < |decls| :: cur[i] == Renamed(decls[i], renames)
  }

  lemma UnambiguousPrefix(renames: seq<Rename>)
    requires renames != [] && Unambiguous(renames)
    ensures Unambiguous(renames[..|renames| - 1])
  {
    var init := renames[..|renames| - 1];
    assert forall k | 0 <= k < |init| :: init[k] == renames[k];
  }

  lemma AllOneTypedefSnoc(decls: seq<Decl>, renames: seq<Rename>)
    requires renames != []
    ensures AllOneTypedef(decls, renames) <==>
            AllOneTypedef(decls, renames[..|renames| - 1]) && OneTypedef(decls, renames[|renames| - 1].from)
  {
    var init := renames[..|renames| - 1];
    assert forall k | 0 <= k < |init| :: init[k] == renames[k];
  }

  /**
   * Renames that do not interfere succeed exactly when each one's source
   * names exactly one typedef, and then rename exactly those typedefs.
   */
  lemma {:induction false} RenameAllEffect(decls: seq<Decl>, renames: seq<Rename>)
    requires Unambiguous(renames)
    ensures RenameAll(decls, renames).Ok? <==> AllOneTypedef(decls, renames)
    ensures RenameAll(decls, renames).Ok? ==> RenamedAll(decls, RenameAll(decls, renames).value, renames)
    decreases |renames|
  {
    if renames == [] {
      assert forall i | 0 <= i < |decls| :: Renamed(decls[i], renames) == decls[i];
    } else {
      var init := renames[..|renames| - 1];
      var last := renames[|renames| - 1];
      assert renames == init + [last];
      UnambiguousPrefix(renames);
      RenameAllEffect(decls, init);
      RenameAllSnoc(decls, renames);
      AllOneTypedefSnoc(decls, renames);
      var prev := RenameAll(decls, init);
      if prev.Ok? {
        RenameStep(decls, prev.value, init, last);
      }
    }
  }

  /** Renaming so far has not touched the typedef the next rename looks for, nor made a new one. */
  lemma RenameStepAgree(decls: seq<Decl>, cur: seq<Decl>, init: seq<Rename>, last: Rename)
    requires Unambiguous(init + [last]) && RenamedAll(decls, cur, init)
    ensures forall i | 0 <= i < |decls| ::
      (cur[i].Typedef? && cur[i].name == last.from) == (decls[i].Typedef? && decls[i].name == last.from)
  {
    var renames := init + [last];
    assert forall k | 0 <= k < |init| :: renames[k] == init[k];
    forall i | 0 <= i < |decls|
      ensures (cur[i].Typedef? && cur[i].name == last.from) == (decls[i].Typedef? && decls[i].name == last.from)
    {
      var t := Target(decls[i].name, init);
      if decls[i].Typedef? && t.Some? {
        var k :| 0 <= k < |init| && init[k].from == decls[i].name && init[k].to == t.value;
        assert renames[k].to != renames[|renames| - 1].from;
      }
    }
  }

  /** Renaming the one typedef found at `j` extends the renames by one. */
  lemma RenameStepValue(decls: seq<Decl>, cur: seq<Decl>, init: seq<Rename>, last: Rename, j: nat)
    requires Unambiguous(init + [last]) && RenamedAll(decls, cur, init)
    requires j < |decls| && decls[j].Typedef? && decls[j].name == last.from
    requires forall i | 0 <= i < |decls| && decls[i].Typedef? && decls[i].name == last.from :: i == j
    ensures RenamedAll(decls, cur[j := WithName(cur[j], last.to)], init + [last])
  {
    var renames := init + [last];
    assert renames[..|renames| - 1] == init;
    assert Target(last.from, init).None? by {
      forall k | 0 <= k < |init| ensures init[k].from != last.from {
        assert renames[k].from != renames[|renames| - 1].from;
      }
    }
    var r := cur[j := WithName(cur[j], last.to)];
    forall i | 0 <= i < |decls| ensures r[i] == Renamed(decls[i], renames) {
      if i != j {
        assert !(decls[i].Typedef? && decls[i].name == last.from);
      }
    }
  }

  /** One more rename on top of the earlier ones. */
  lemma RenameStep(decls: seq<Decl>, cur: seq<Decl>, init: seq<Rename>, last: Rename)
    requires Unambiguous(init + [last]) && RenamedAll(decls, cur, init)
    ensures RenameTypedef(cur, last).Ok? <==> OneTypedef(decls, last.from)
    ensures RenameTypedef(cur, last).Ok? ==> RenamedAll(decls, RenameTypedef(cur, last).value, init + [last])
  {
    RenameStepAgree(decls, cur, init, last);
    FindSingleAgree(cur, (d: Decl) => d.Typedef? && d.name == last.from, decls, (d: Decl) => d.Typedef? && d.name == last.from);
    OneTypedefFound(decls, last.from);
    var f := FindSingle(decls, (d: Decl) => d.Typedef? && d.name == last.from);
    if f.Found? {
      RenameStepValue(decls, cur, init, last, f.value);
    }
  }

  /**
   * PostprocessDelegates, on values: in the imgui.h unit's one Delegates
   * namespace the five delegate typedefs are renamed, then every declaration
   * of the namespace is given the unit as parent and appended to the unit,
   * and the namespace is emptied.
   */
  function MergeDelegates(units: seq<TranslationUnit>): Result<seq<TranslationUnit>> {
    MergeDelegatesWith(units, DelegateRenames)
  }

  /** The merge with any table of renames; the lemmas below hold for every unambiguous table. */
  function MergeDelegatesWith(units: seq<TranslationUnit>, renames: seq<Rename>): Result<seq<TranslationUnit>> {
    var t :- GetImGuiTranslationUnit(units);
    var tu := units[t];
    var n :- Single(FindSingle(tu.decls, (d: Decl) => d.Namespace? && d.name == DelegatesName), DelegatesName);
    var ns := tu.decls[n];
    var renamed :- RenameAll(ns.decls, renames);
    Ok(units[t := Flattened(tu, n, MoveAll(renamed, UnitScope(tu.fileName)))])
  }

  /** The unit with its `n`-th declaration, a namespace, emptied and `moved` appended to its declarations. */
  function Flattened(tu: TranslationUnit, n: nat, moved: seq<Decl>): (r: TranslationUnit)
    requires n < |tu.decls| && tu.decls[n].Namespace?
    ensures r.fileName == tu.fileName
    ensures |r.decls| == |tu.decls| + |moved|
    ensures r.decls[n] == Emptied(tu.decls[n])
    ensures forall k | 0 <= k < |tu.decls| && k != n :: r.decls[k] == tu.decls[k]
    ensures forall k | 0 <= k < |moved| :: r.decls[|tu.decls| + k] == moved[k]
  {
    tu.(decls := tu.decls[n := Emptied(tu.decls[n])] + moved)
  }

  /** Every declaration given `parent` as its parent. */
  function MoveAll(decls: seq<Decl>, parent: Scope): (r: seq<Decl>)
    ensures |r| == |decls| && forall k | 0 <= k < |decls| :: r[k] == WithParent(decls[k], parent)
  {
    seq(|decls|, k requires 0 <= k < |decls| => WithParent(decls[k], parent))
  }

  /** A non-empty list of renames is its shorter prefix followed by its last rename. */
  lemma RenameAllSnoc(decls: seq<Decl>, renames: seq<Rename>)
    requires renames != []
    ensures var prev := RenameAll(decls, renames[..|renames| - 1]);
            RenameAll(decls, renames) == if prev.Ok? then RenameTypedef(prev.value, renames[|renames| - 1]) else prev
  {
  }

  lemma DelegateRenamesUnambiguous()
    ensures Unambiguous(DelegateRenames)
  {
    DelegateSourcesDistinct();
    DelegateTargetsNoSources();
  }

  /** The five source names differ pairwise: by length, or else by their first character. */
  lemma DelegateSourcesDistinct()
    ensures forall i, j | 0 <= i < j < |DelegateRenames| :: DelegateRenames[i].from != DelegateRenames[j].from
  {
    var rs := DelegateRenames;
    assert |rs[0].from| == 22 && |rs[1].from| == 23 && |rs[2].from| == 24 && |rs[3].from| == 34 && |rs[4].from| == 23;
    assert rs[1].from[0] == 'A' && rs[4].from[0] == 'F';
  }

  /** Every new name starts with 'I', and no source name does. */
  lemma DelegateTargetsNoSources()
    ensures forall i, j | 0 <= i < |DelegateRenames| && 0 <= j < |DelegateRenames| :: DelegateRenames[i].to != DelegateRenames[j].from
  {
    var rs := DelegateRenames;
    assert forall i | 0 <= i < |rs| :: |rs[i].to| > 0 && rs[i].to[0] == 'I';
    assert forall i | 0 <= i < |rs| :: |rs[i].from| > 0 && rs[i].from[0] != 'I';
  }

  /** The imgui.h unit `t` and its Delegates namespace `n`, each the only one of its kind. */
  ghost predicate DelegatesAt(units: seq<TranslationUnit>, t: nat, n: nat) {
    && t < |units| && units[t].fileName == ImGuiHeader
    && (forall t' | 0 <= t' < |units| && units[t'].fileName == ImGuiHeader :: t' == t)
    && n < |units[t].decls| && units[t].decls[n].Namespace? && units[t].decls[n].name == DelegatesName
    && (forall k | 0 <= k < |units[t].decls| && units[t].decls[k].Namespace? && units[t].decls[k].name == DelegatesName :: k == n)
  }

  /** With the unit and the namespace found, the pass is the renames followed by the move. */
  lemma MergeDelegatesUnfold(units: seq<TranslationUnit>, renames: seq<Rename>, t: nat, n: nat)
    requires DelegatesAt(units, t, n)
    ensures var ns := units[t].decls[n];
            RenameAll(ns.decls, renames).Err? <==> MergeDelegatesWith(units, renames).Err?
    ensures var ns := units[t].decls[n];
            var renamed := RenameAll(ns.decls, renames);
            renamed.Ok? ==>
              MergeDelegatesWith(units, renames) == Ok(units[t := Flattened(units[t], n, MoveAll(renamed.value, UnitScope(ImGuiHeader)))])
  {
    assert GetImGuiTranslationUnit(units) == Ok(t);
    assert FindSingle(units[t].decls, (d: Decl) => d.Namespace? && d.name == DelegatesName) == Found(n);
  }

  /** Given the imgui.h unit and its Delegates namespace, the pass succeeds exactly when each name the renames start from is one typedef of the namespace. */
  lemma MergeDelegatesSucceedsIff(units: seq<TranslationUnit>, renames: seq<Rename>, t: nat, n: nat)
    requires DelegatesAt(units, t, n) && Unambiguous(renames)
    ensures MergeDelegatesWith(units, renames).Ok? <==> AllOneTypedef(units[t].decls[n].decls, renames)
  {
    MergeDelegatesUnfold(units, renames, t, n);
    RenameAllEffect(units[t].decls[n].decls, renames);
  }

  /** The pass itself succeeds exactly when each of the five delegate names is one typedef of the Delegates namespace. */
  lemma DelegatesMergeSucceedsIff(units: seq<TranslationUnit>, t: nat, n: nat)
    requires DelegatesAt(units, t, n)
    ensures MergeDelegates(units).Ok? <==> AllOneTypedef(units[t].decls[n].decls, DelegateRenames)
  {
    DelegateRenamesUnambiguous();
    MergeDelegatesSucceedsIff(units, DelegateRenames, t, n);
  }

  /**
   * After a successful pass the namespace is empty, and the unit's
   * declarations are followed by the namespace's former declarations, in
   * order, renamed and with the unit as their parent; nothing else changes.
   */
  lemma MergeDelegatesEffect(units: seq<TranslationUnit>, renames: seq<Rename>, t: nat, n: nat)
    requires DelegatesAt(units, t, n) && Unambiguous(renames) && MergeDelegatesWith(units, renames).Ok?
    ensures var r := MergeDelegatesWith(units, renames).value;
            var before := units[t].decls;
            var ns := before[n];
            var after := r[t].decls;
            && |r| == |units|
            && (forall u | 0 <= u < |units| && u != t :: r[u] == units[u])
            && r[t].fileName == ImGuiHeader
            && |after| == |before| + |ns.decls|
            && after[n] == Emptied(ns)
            && (forall k | 0 <= k < |before| && k != n :: after[k] == before[k])
            && (forall k | 0 <= k < |ns.decls| ::
                  after[|before| + k] == WithParent(Renamed(ns.decls[k], renames), UnitScope(ImGuiHeader)))
  {
    var ns := units[t].decls[n];
    MergeDelegatesShape(units, renames, t, n);
    MovedRenamed(ns.decls, renames, UnitScope(ImGuiHeader));
  }

  /** The effect of a successful pass, with the moved declarations still written as the renames followed by the move. */
  lemma MergeDelegatesShape(units: seq<TranslationUnit>, renames: seq<Rename>, t: nat, n: nat)
    requires DelegatesAt(units, t, n) && MergeDelegatesWith(units, renames).Ok?
    ensures var r := MergeDelegatesWith(units, renames).value;
            var before := units[t].decls;
            var ns := before[n];
            var after := r[t].decls;
            && RenameAll(ns.decls, renames).Ok?
            && |r| == |units|
            && (forall u | 0 <= u < |units| && u != t :: r[u] == units[u])
            && r[t].fileName == ImGuiHeader
            && |after| == |before| + |ns.decls|
            && after[n] == Emptied(ns)
            && (forall k | 0 <= k < |before| && k != n :: after[k] == before[k])
            && (forall k | 0 <= k < |ns.decls| ::
                  after[|before| + k] == MoveAll(RenameAll(ns.decls, renames).value, UnitScope(ImGuiHeader))[k])
  {
    var ns := units[t].decls[n];
    MergeDelegatesUnfold(units, renames, t, n);
    RenameAllLength(ns.decls, renames);
  }

  /** Renaming keeps the number of declarations. */
  lemma {:induction false} RenameAllLength(decls: seq<Decl>, renames: seq<Rename>)
    ensures RenameAll(decls, renames).Ok? ==> |RenameAll(decls, renames).value| == |decls|
    decreases |renames|
  {
    if renames != [] {
      RenameAllSnoc(decls, renames);
      RenameAllLength(decls, renames[..|renames| - 1]);
    }
  }

  /** After the renames and the move, each declaration is its original, renamed and re-parented. */
  lemma MovedRenamed(decls: seq<Decl>, renames: seq<Rename>, parent: Scope)
    requires Unambiguous(renames) && RenameAll(decls, renames).Ok?
    ensures var moved := MoveAll(RenameAll(decls, renames).value, parent);
            && |moved| == |decls|
            && forall k | 0 <= k < |decls| :: moved[k] == WithParent(Renamed(decls[k], renames), parent)
  {
    RenameAllLength(decls, renames);
    RenameAllEffect(decls, renames);
  }

  method PostprocessDelegates(ctx: AstContext) returns (outcome: Outcome)
    modifies ctx
    ensures outcome == OutcomeOf(MergeDelegates(old(ctx.units)))
    ensures outcome.Pass? ==> ctx.units == MergeDelegates(old(ctx.units)).value
  {
    var t := GetImGuiTranslationUnit(ctx.units);
    if t.Err? {
      return Fail(t.error);
    }
    var tu := ctx.units[t.value];
    var n := Single(FindSingle(tu.decls, (d: Decl) => d.Namespace? && d.name == DelegatesName), DelegatesName);
    if n.Err? {
      return Fail(n.error);
    }
    var ns := tu.decls[n.value];
    var renamed := RenameDelegates(ns.decls);
    if renamed.Err? {
      return Fail(renamed.error);
    }
    var moved := Reparent(renamed.value, UnitScope(tu.fileName));
    ctx.units := ctx.units[t.value := tu.(decls := tu.decls[n.value := Emptied(ns)] + moved)];
    return Pass;
  }

  /** The loop over the rename table of PostprocessDelegates. */
  method RenameDelegates(decls: seq<Decl>) returns (result: Result<seq<Decl>>)
    ensures result == RenameAll(decls, DelegateRenames)
  {
    var cur := decls;
    var k := 0;
    while k < |DelegateRenames|
      invariant 0 <= k <= |DelegateRenames|
      invariant RenameAll(decls, DelegateRenames[..k]) == Ok(cur)
    {
      var r := RenameTypedef(cur, DelegateRenames[k]);
      RenameAllSnoc(decls, DelegateRenames[..k + 1]);
      assert DelegateRenames[..k + 1][..k] == DelegateRenames[..k] && DelegateRenames[..k + 1][k] == DelegateRenames[k];
      if r.Err? {
        FoldStopsAtFailure(decls, DelegateRenames, k + 1, RenameTypedef);
        return r;
      }
      cur := r.value;
      k := k + 1;
    }
    assert DelegateRenames[..k] == DelegateRenames;
    return Ok(cur);
  }

  /** The loop of PostprocessDelegates that moves the namespace's declarations to the unit. */
  method Reparent(decls: seq<Decl>, parent: Scope) returns (moved: seq<Decl>)
    ensures moved == MoveAll(decls, parent)
  {
    moved := decls;
    var i := 0;
    while i < |moved|
      invariant 0 <= i <= |moved| == |decls|
      invariant forall m | 0 <= m < |decls| :: moved[m] == if m < i then WithParent(decls[m], parent) else decls[m]
    {
      moved := moved[i := WithParent(moved[i], parent)];
      i := i + 1;
    }
  }

  // ---------------------------------------------------------------------------
  // PostprocessEnumerations

  /** An enumeration the generator should have treated as a bit mask: its name contains "Flags". */
  predicate IsFlagsCandidate(d: Decl) {
    d.Enumeration? && Contains(d.name, "Flags")
  }

  /** SetFlags() on a candidate that is not yet flags; every other declaration is left alone. */
  function MarkFlags(d: Decl): Decl {
    if IsFlagsCandidate(d) && !d.isFlags then d.(isFlags := true) else d
  }

  function MarkAll(decls: seq<Decl>): (r: seq<Decl>)
    ensures |r| == |decls| && forall k | 0 <= k < |decls| :: r[k] == MarkFlags(decls[k])
  {
    seq(|decls|, k requires 0 <= k < |decls| => MarkFlags(decls[k]))
  }

  function MarkFlagsSpec(units: seq<TranslationUnit>): Result<seq<TranslationUnit>> {
    var t :- GetImGuiTranslationUnit(units);
    Ok(units[t := units[t].(decls := MarkAll(units[t].decls))])
  }

  /**
   * After the pass every candidate enumeration of the imgui.h unit is flags
   * and differs from before in that flag only; every other declaration, and
   * every other unit, is unchanged.
   */
  lemma MarkFlagsEffect(units: seq<TranslationUnit>)
    ensures MarkFlagsSpec(units).Ok? <==> GetImGuiTranslationUnit(units).Ok?
    ensures MarkFlagsSpec(units).Ok? ==>
      var t := GetImGuiTranslationUnit(units).value;
      var r := MarkFlagsSpec(units).value;
      var before := units[t].decls;
      && |r| == |units| && (forall u | 0 <= u < |units| && u != t :: r[u] == units[u])
      && r[t].fileName == units[t].fileName && |r[t].decls| == |before|
      && (forall k | 0 <= k < |before| && IsFlagsCandidate(before[k]) ::
            r[t].decls[k].isFlags && r[t].decls[k] == before[k].(isFlags := true))
      && (forall k | 0 <= k < |before| && !IsFlagsCandidate(before[k]) :: r[t].decls[k] == before[k])
  {
  }

  /** Marking flags twice gives the same graph as marking them once. */
  lemma MarkFlagsIdempotent(units: seq<TranslationUnit>)
    requires MarkFlagsSpec(units).Ok?
    ensures MarkFlagsSpec(MarkFlagsSpec(units).value) == MarkFlagsSpec(units)
  {
    var t := GetImGuiTranslationUnit(units).value;
    var once := MarkFlagsSpec(units).value;
    HeaderSameFileNames(once, units);
    var decls := once[t].decls;
    assert MarkAll(decls) == decls;
    assert once[t := once[t].(decls := decls)] == once;
  }

  /** PostprocessEnumerations: the loop over the enumerations of the imgui.h unit. */
  method PostprocessEnumerations(ctx: AstContext) returns (outcome: Outcome)
    modifies ctx
    ensures outcome == OutcomeOf(MarkFlagsSpec(old(ctx.units)))
    ensures outcome.Pass? ==> ctx.units == MarkFlagsSpec(old(ctx.units)).value
  {
    var t := GetImGuiTranslationUnit(ctx.units);
    if t.Err? {
      return Fail(t.error);
    }
    var unit := ctx.units[t.value];
    var decls := unit.decls;
    for i := 0 to |decls|
      invariant |decls| == |unit.decls|
      invariant forall m | 0 <= m < |decls| :: decls[m] == if m < i then MarkFlags(unit.decls[m]) else unit.decls[m]
    {
      var e := decls[i];
      if e.Enumeration? {
        if Contains(e.name, "Flags") {
          if e.isFlags {
            continue;
          }
          decls := decls[i := e.(isFlags := true)];
        }
      }
    }
    assert decls == MarkAll(unit.decls);
    ctx.units := ctx.units[t.value := unit.(decls := decls)];
    return Pass;
  }

  // ---------------------------------------------------------------------------
  // PostprocessProperties

  const VectorTemplate := "ImVector"

  /** A property whose type is a specialisation of the ImVector template. */
  predicate IsVectorProperty(p: Property) {
    p.ty.TemplateSpecialization? && p.ty.template == VectorTemplate
  }

  /** A property as the pass leaves it: read-only if it is an ImVector, as it was otherwise. */
  function Sealed(p: Property): Property {
    if IsVectorProperty(p) then p.(readOnly := true) else p
  }

  /** A class whose first `j` properties the pass has visited. */
  function SealedFirst(c: Decl, j: nat): (r: Decl)
    requires c.Class?
    ensures r.Class? && SameSignature(r, c) && |r.properties| == |c.properties|
    ensures forall m | 0 <= m < |c.properties| :: r.properties[m] == if m < j then Sealed(c.properties[m]) else c.properties[m]
  {
    c.(properties := seq(|c.properties|, m requires 0 <= m < |c.properties| =>
                           if m < j then Sealed(c.properties[m]) else c.properties[m]))
  }

  function SealedClass(d: Decl): Decl {
    if d.Class? then SealedFirst(d, |d.properties|) else d
  }

  /** The unit's declarations once the classes before `i` and the first `j` properties of class `i` are visited. */
  function SealedBefore(decls: seq<Decl>, i: nat, j: nat): (r: seq<Decl>)
    ensures |r| == |decls|
    ensures forall k | 0 <= k < |decls| && k < i :: r[k] == SealedClass(decls[k])
    ensures forall k | 0 <= k < |decls| && k > i :: r[k] == decls[k]
  {
    seq(|decls|, k requires 0 <= k < |decls| =>
          if k < i then SealedClass(decls[k])
          else if k == i && decls[k].Class? then SealedFirst(decls[k], j)
          else decls[k])
  }

  function WithDecls(units: seq<TranslationUnit>, t: nat, decls: seq<Decl>): seq<TranslationUnit>
    requires t < |units|
  {
    units[t := units[t].(decls := decls)]
  }

  /**
   * The lookups for property `m` of class `c` succeed: if it is an ImVector,
   * the class's name names exactly one class in the whole graph and the
   * property's name exactly one property of it.
   */
  ghost predicate ResolvedProperty(units: seq<TranslationUnit>, c: Decl, m: nat)
    requires c.Class? && m < |c.properties|
  {
    IsVectorProperty(c.properties[m]) ==> UniqueDecl(units, ClassKind, c.name) && OneProperty(c, c.properties[m].name)
  }

  ghost predicate ResolvedFirst(units: seq<TranslationUnit>, c: Decl, j: nat)
    requires c.Class?
  {
    forall m | 0 <= m < j && m < |c.properties| :: ResolvedProperty(units, c, m)
  }

  ghost predicate ResolvedClass(units: seq<TranslationUnit>, d: Decl) {
    d.Class? ==> ResolvedFirst(units, d, |d.properties|)
  }

  ghost predicate ResolvedBefore(units: seq<TranslationUnit>, decls: seq<Decl>, i: nat) {
    forall k | 0 <= k < i && k < |decls| :: ResolvedClass(units, decls[k])
  }

  function SealAll(decls: seq<Decl>): (r: seq<Decl>)
    ensures |r| == |decls| && forall k | 0 <= k < |decls| :: r[k] == SealedClass(decls[k])
  {
    seq(|decls|, k requires 0 <= k < |decls| => SealedClass(decls[k]))
  }

  /**
   * PostprocessProperties, on values: when every lookup the pass makes finds
   * exactly one class and one property, every ImVector property of every
   * class of the imgui.h unit becomes read-only. Which error a failing
   * lookup reports is left open.
   */
  ghost function SealVectors(units: seq<TranslationUnit>): Result<seq<TranslationUnit>> {
    var t :- GetImGuiTranslationUnit(units);
    var decls := units[t].decls;
    if ResolvedBefore(units, decls, |decls|)
    then Ok(WithDecls(units, t, SealAll(decls)))
    else Err(NoMatch(VectorTemplate))
  }

  /**
   * A property of a class of the imgui.h unit is read-only afterwards exactly
   * when it was before or it is an ImVector; nothing else in the graph changes.
   */
  lemma SealVectorsEffect(units: seq<TranslationUnit>)
    requires SealVectors(units).Ok?
    ensures var t := GetImGuiTranslationUnit(units).value;
            var r := SealVectors(units).value;
            var before := units[t].decls;
            && |r| == |units| && (forall u | 0 <= u < |units| && u != t :: r[u] == units[u])
            && r[t].fileName == units[t].fileName && |r[t].decls| == |before|
            && (forall k | 0 <= k < |before| && !before[k].Class? :: r[t].decls[k] == before[k])
            && (forall k | 0 <= k < |before| && before[k].Class? ::
                  && r[t].decls[k] == before[k].(properties := r[t].decls[k].properties)
                  && |r[t].decls[k].properties| == |before[k].properties|
                  && forall m | 0 <= m < |before[k].properties| ::
                       var p, q := before[k].properties[m], r[t].decls[k].properties[m];
                       q == p.(readOnly := q.readOnly) && (q.readOnly <==> p.readOnly || IsVectorProperty(p)))
  {
    var t := GetImGuiTranslationUnit(units).value;
    var before := units[t].decls;
    var r := SealVectors(units).value;
    forall k | 0 <= k < |before| && before[k].Class?
      ensures r[t].decls[k] == before[k].(properties := r[t].decls[k].properties)
    {
      assert r[t].decls[k] == SealedFirst(before[k], |before[k].properties|);
    }
  }

  lemma OnePropertyNamed(c: Decl, name: string)
    requires c.Class?
    ensures PropertyNamed(c.properties, name).Found? <==> OneProperty(c, name)
  {
    var p := (p: Property) => p.name == name;
    if OneProperty(c, name) {
      var j :| 0 <= j < |c.properties| && c.properties[j].name == name &&
        forall j' | 0 <= j' < |c.properties| && c.properties[j'].name == name :: j' == j;
      FindSingleOnly(c.properties, p, j);
    }
    var r := FindSingle(c.properties, p);
    if r.Found? {
      forall j' | 0 <= j' < |c.properties| && c.properties[j'].name == name ensures j' == r.value {
        assert p(c.properties[j']);
      }
    }
  }

  /** Declarations with the same signatures put in place of a unit's keep every name a lookup can see. */
  lemma WithDeclsKeepsNames(units: seq<TranslationUnit>, t: nat, decls: seq<Decl>)
    requires t < |units| && |decls| == |units[t].decls|
    requires forall k | 0 <= k < |decls| :: SameSignature(decls[k], units[t].decls[k])
    ensures SameNames(WithDecls(units, t, decls), units)
  {
  }

  /** Sealing properties keeps every declaration's signature. */
  lemma SealedSignatures(decls: seq<Decl>, i: nat, j: nat)
    ensures forall k | 0 <= k < |decls| :: SameSignature(SealedBefore(decls, i, j)[k], decls[k])
  {
    forall k | 0 <= k < |decls|
      ensures SameSignature(SealedBefore(decls, i, j)[k], decls[k])
    {
      if k > i || !decls[k].Class? {
        assert SealedBefore(decls, i, j)[k] == decls[k];
      } else if k < i {
        assert SealedBefore(decls, i, j)[k] == SealedFirst(decls[k], |decls[k].properties|);
      } else {
        assert SealedBefore(decls, i, j)[k] == SealedFirst(decls[k], j);
      }
    }
  }

  /** While the pass runs, the class lookup sees the graph as it was and finds the class being visited. */
  lemma SealClassLookup(start: seq<TranslationUnit>, t: nat, i: nat, j: nat)
    requires t < |start| && i < |start[t].decls| && start[t].decls[i].Class?
    ensures var c := start[t].decls[i];
            var r := FindDecl(WithDecls(start, t, SealedBefore(start[t].decls, i, j)), ClassKind, c.name);
            && (r.Found? <==> UniqueDecl(start, ClassKind, c.name))
            && (r.Found? ==> r.value == Loc(t, i))
  {
    var decls := start[t].decls;
    var c := decls[i];
    assert IsDeclOf(start, Loc(t, i), ClassKind, c.name);
    var cur := WithDecls(start, t, SealedBefore(decls, i, j));
    SealedSignatures(decls, i, j);
    WithDeclsKeepsNames(start, t, SealedBefore(decls, i, j));
    FindDeclSameNames(cur, start, ClassKind, c.name);
    FindDeclUnique(start, ClassKind, c.name);
  }

  /** The property lookup in a partly visited class finds what it would find in the class as it was. */
  lemma SealPropertyLookup(c: Decl, j: nat)
    requires c.Class? && j < |c.properties|
    ensures var name := c.properties[j].name;
            var r := PropertyNamed(SealedFirst(c, j).properties, name);
            && (r.Found? <==> OneProperty(c, name))
            && (r.Found? ==> r.value == j)
  {
    var name := c.properties[j].name;
    var cc := SealedFirst(c, j);
    FindSingleAgree(cc.properties, (p: Property) => p.name == name, c.properties, (p: Property) => p.name == name);
    OnePropertyNamed(c, name);
  }

  /** Visiting an ImVector property: the lookups see the graph as it was, and success seals one more property. */
  lemma SealStep(start: seq<TranslationUnit>, t: nat, i: nat, j: nat)
    requires t < |start| && i < |start[t].decls| && start[t].decls[i].Class?
    requires j < |start[t].decls[i].properties| && IsVectorProperty(start[t].decls[i].properties[j])
    ensures var decls := start[t].decls;
            var c := decls[i];
            var r := SetPropertyAsReadOnly(WithDecls(start, t, SealedBefore(decls, i, j)), c.name, c.properties[j].name);
            && (r.Ok? <==> UniqueDecl(start, ClassKind, c.name) && OneProperty(c, c.properties[j].name))
            && (r.Ok? ==> r.value == WithDecls(start, t, SealedBefore(decls, i, j + 1)))
  {
    var decls := start[t].decls;
    var c := decls[i];
    var name := c.properties[j].name;
    var cur := WithDecls(start, t, SealedBefore(decls, i, j));
    SealClassLookup(start, t, i, j);
    SealPropertyLookup(c, j);
    var l := FindDecl(cur, ClassKind, c.name);
    if l.Found? {
      var cc := SealedFirst(c, j);
      assert DeclAt(cur, l.value) == cc;
      var m := PropertyNamed(cc.properties, name);
      if m.Found? {
        assert SetPropertyAsReadOnly(cur, c.name, name)
            == Ok(SetDecl(cur, Loc(t, i), cc.(properties := cc.properties[j := cc.properties[j].(readOnly := true)])));
        SealOneMore(start, t, i, j);
      }
    }
  }

  lemma SealOneMore(start: seq<TranslationUnit>, t: nat, i: nat, j: nat)
    requires t < |start| && i < |start[t].decls| && start[t].decls[i].Class?
    requires j < |start[t].decls[i].properties| && IsVectorProperty(start[t].decls[i].properties[j])
    ensures var decls := start[t].decls;
            var cc := SealedFirst(decls[i], j);
            SetDecl(WithDecls(start, t, SealedBefore(decls, i, j)), Loc(t, i),
                    cc.(properties := cc.properties[j := cc.properties[j].(readOnly := true)]))
            == WithDecls(start, t, SealedBefore(decls, i, j + 1))
  {
    var decls := start[t].decls;
    var c := decls[i];
    var cc := SealedFirst(c, j);
    assert cc.(properties := cc.properties[j := cc.properties[j].(readOnly := true)]) == SealedFirst(c, j + 1);
    assert SealedBefore(decls, i, j)[i := SealedFirst(c, j + 1)] == SealedBefore(decls, i, j + 1);
  }

  /** Visiting a property that is not an ImVector changes nothing. */
  lemma SealSkip(decls: seq<Decl>, i: nat, j: nat)
    requires i < |decls| && decls[i].Class? && j < |decls[i].properties| && !IsVectorProperty(decls[i].properties[j])
    ensures SealedBefore(decls, i, j) == SealedBefore(decls, i, j + 1)
  {
    assert SealedFirst(decls[i], j) == SealedFirst(decls[i], j + 1);
  }

  /** Finishing declaration `i` is starting declaration `i + 1`. */
  lemma SealNext(decls: seq<Decl>, i: nat)
    requires i < |decls|
    ensures SealedBefore(decls, i, if decls[i].Class? then |decls[i].properties| else 0) == SealedBefore(decls, i + 1, 0)
  {
    if i + 1 < |decls| && decls[i + 1].Class? {
      assert SealedFirst(decls[i + 1], 0) == decls[i + 1];
    }
  }

  /** Before the first declaration nothing has been visited. */
  lemma SealNone(start: seq<TranslationUnit>, t: nat)
    requires t < |start|
    ensures WithDecls(start, t, SealedBefore(start[t].decls, 0, 0)) == start
  {
    var decls := start[t].decls;
    if 0 < |decls| && decls[0].Class? {
      assert SealedFirst(decls[0], 0) == decls[0];
    }
    assert SealedBefore(decls, 0, 0) == decls;
  }

  method PostprocessProperties(ctx: AstContext) returns (outcome: Outcome)
    modifies ctx
    ensures outcome.Pass? <==> SealVectors(old(ctx.units)).Ok?
    ensures outcome.Pass? ==> ctx.units == SealVectors(old(ctx.units)).value
  {
    var t := GetImGuiTranslationUnit(ctx.units);
    if t.Err? {
      return Fail(t.error);
    }
    ghost var start := ctx.units;
    var decls := ctx.units[t.value].decls;
    SealNone(start, t.value);
    var i := 0;
    while i < |decls|
      invariant 0 <= i <= |decls| && t.value < |start| && decls == start[t.value].decls
      invariant ctx.units == WithDecls(start, t.value, SealedBefore(decls, i, 0))
      invariant ResolvedBefore(start, decls, i)
    {
      if decls[i].Class? {
        outcome := SealClassVectors(ctx, start, t.value, i);
        if outcome.Fail? {
          assert !ResolvedClass(start, decls[i]);
          return;
        }
      }
      SealNext(decls, i);
      i := i + 1;
    }
    assert SealedBefore(decls, i, 0) == SealAll(decls);
    return Pass;
  }

  /** The inner loop of PostprocessProperties: the properties of class `i` of the imgui.h unit. */
  method SealClassVectors(ctx: AstContext, ghost start: seq<TranslationUnit>, t: nat, i: nat) returns (outcome: Outcome)
    requires t < |start| && i < |start[t].decls| && start[t].decls[i].Class?
    requires ctx.units == WithDecls(start, t, SealedBefore(start[t].decls, i, 0))
    modifies ctx
    ensures outcome.Pass? <==> ResolvedClass(start, start[t].decls[i])
    ensures outcome.Pass? ==> ctx.units == WithDecls(start, t, SealedBefore(start[t].decls, i, |start[t].decls[i].properties|))
  {
    var c := ctx.units[t].decls[i];
    assert c == start[t].decls[i] by {
      assert SealedFirst(start[t].decls[i], 0) == start[t].decls[i];
    }
    var j := 0;
    while j < |c.properties|
      invariant 0 <= j <= |c.properties|
      invariant ctx.units == WithDecls(start, t, SealedBefore(start[t].decls, i, j))
      invariant ResolvedFirst(start, c, j)
    {
      var p := c.properties[j];
      if p.ty.TemplateSpecialization? && p.ty.template == VectorTemplate {
        SealStep(start, t, i, j);
        var r := SetPropertyAsReadOnly(ctx.units, c.name, p.name);
        if r.Err? {
          assert !ResolvedProperty(start, c, j);
          return Fail(r.error);
        }
        ctx.units := r.value;
      } else {
        SealSkip(start[t].decls, i, j);
      }
      assert ResolvedProperty(start, c, j);
      j := j + 1;
    }
    return Pass;
  }

  // ---------------------------------------------------------------------------
  // The two library hooks

  /** A unit list with the same file names in the same order resolves imgui.h the same way. */
  lemma HeaderSameFileNames(a: seq<TranslationUnit>, b: seq<TranslationUnit>)
    requires SameFileNames(a, b)
    ensures GetImGuiTranslationUnit(a) == GetImGuiTranslationUnit(b)
  {
    FindSingleAgree(a, (u: TranslationUnit) => u.fileName == ImGuiHeader, b, (u: TranslationUnit) => u.fileName == ImGuiHeader);
  }

  /** Preprocess: the four preprocessing passes in order, stopping at the first failure. */
  function PreprocessSpec(units: seq<TranslationUnit>): Result<seq<TranslationUnit>> {
    var a :- PreprocessEnumerationsSpec(units);
    var b :- FlattenNamespace(a);
    var c :- SetValueTypes(b);
    IgnoreAll(c, PreprocessIgnoreRules)
  }

  /** Postprocess: the four postprocessing passes in order, stopping at the first failure. */
  ghost function PostprocessSpec(units: seq<TranslationUnit>): Result<seq<TranslationUnit>> {
    var a :- IgnoreAll(units, PostprocessIgnoreRules);
    var b :- MergeDelegates(a);
    var c :- MarkFlagsSpec(b);
    SealVectors(c)
  }

  /** Preprocessing succeeds only on a graph with exactly one imgui.h unit. */
  lemma PreprocessNeedsHeader(units: seq<TranslationUnit>)
    requires PreprocessSpec(units).Ok?
    ensures GetImGuiTranslationUnit(units).Ok?
  {
    EnumerationsKeepHeader(units);
  }

  /** The enumeration pass keeps every unit and its file name, so it finds the same imgui.h unit. */
  lemma EnumerationsKeepHeader(units: seq<TranslationUnit>)
    requires PreprocessEnumerationsSpec(units).Ok?
    ensures GetImGuiTranslationUnit(PreprocessEnumerationsSpec(units).value) == GetImGuiTranslationUnit(units)
  {
    var a := IgnoreDecl(units, EnumerationKind, "ImGuiModFlags_").value;
    var b := IgnoreDecl(a, EnumerationKind, "ImGuiNavInput_").value;
    var c := PreprocessEnumerationsSpec(units).value;
    assert SameShape(c, b) by {
      forall u | 0 <= u < |c| ensures c[u] == NormalizeUnit(b[u]) { }
    }
    HeaderSameFileNames(c, b);
    HeaderSameFileNames(b, a);
    HeaderSameFileNames(a, units);
  }

  /** Postprocessing succeeds only on a graph with exactly one imgui.h unit. */
  lemma PostprocessNeedsHeader(units: seq<TranslationUnit>)
    requires PostprocessSpec(units).Ok?
    ensures GetImGuiTranslationUnit(units).Ok?
  {
    IgnoreAllKeepsNames(units, PostprocessIgnoreRules);
    HeaderSameFileNames(IgnoreAll(units, PostprocessIgnoreRules).value, units);
  }

  method Preprocess(ctx: AstContext) returns (outcome: Outcome)
    modifies ctx
    ensures outcome == OutcomeOf(PreprocessSpec(old(ctx.units)))
    ensures outcome.Pass? ==> ctx.units == PreprocessSpec(old(ctx.units)).value
  {
    outcome := PreprocessEnumerations(ctx);
    if outcome.Fail? {
      return;
    }
    outcome := PreprocessNamespace(ctx);
    if outcome.Fail? {
      return;
    }
    outcome := PreprocessValueTypes(ctx);
    if outcome.Fail? {
      return;
    }
    outcome := PreprocessIgnores(ctx);
  }

  method Postprocess(ctx: AstContext) returns (outcome: Outcome)
    modifies ctx
    ensures outcome.Pass? <==> PostprocessSpec(old(ctx.units)).Ok?
    ensures outcome.Pass? ==> ctx.units == PostprocessSpec(old(ctx.units)).value
  {
    outcome := PostprocessIgnores(ctx);
    if outcome.Fail? {
      return;
    }
    outcome := PostprocessDelegates(ctx);
    if outcome.Fail? {
      return;
    }
    outcome := PostprocessEnumerations(ctx);
    if outcome.Fail? {
      return;
    }
    outcome := PostprocessProperties(ctx);
  }
}
