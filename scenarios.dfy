/** Two end-to-end examples of the passes on small declaration graphs. */
module Scenarios {
  import opened Text
  import opened Ast
  import opened MyLibrary

  const ExampleFlags := Enumeration("ExampleFlags_", UnitScope(ImGuiHeader), false,
                                    [EnumItem("ExampleFlags_None", false), EnumItem("ExampleFlags_A", false),
                                     EnumItem("ExampleFlags_COUNT", false)], false)

  /** A name whose character at offset `k` of the suffix position differs does not end with that suffix. */
  lemma NotEndsWith(s: string, suffix: string, k: nat)
    requires k < |suffix| <= |s| && s[|s| - |suffix| + k] != suffix[k]
    ensures !EndsWith(s, suffix)
  {
    assert s[|s| - |suffix|..][k] == s[|s| - |suffix| + k];
  }

  lemma NoneIsNoSentinel()
    ensures !IsSentinel("ExampleFlags_None")
  {
    var s := "ExampleFlags_None";
    NotEndsWith(s, "_BEGIN", 0);
    NotEndsWith(s, "_END", 0);
    NotEndsWith(s, "_COUNT", 0);
    NotEndsWith(s, "_SIZE", 1);
    NotEndsWith(s, "_OFFSET", 0);
  }

  lemma AIsNoSentinel()
    ensures !IsSentinel("ExampleFlags_A")
  {
    var s := "ExampleFlags_A";
    NotEndsWith(s, "_BEGIN", 0);
    NotEndsWith(s, "_END", 0);
    NotEndsWith(s, "_COUNT", 0);
    NotEndsWith(s, "_SIZE", 0);
    NotEndsWith(s, "_OFFSET", 0);
  }

  lemma CountIsSentinel()
    ensures IsSentinel("ExampleFlags_COUNT")
  {
    var s := "ExampleFlags_COUNT";
    assert s[|s| - 6..] == "_COUNT";
  }

  /**
   * An enumeration named ExampleFlags_ with items None, A and COUNT: after
   * the enumeration passes the COUNT item is ignored, the other two stay,
   * and the enumeration is a flags enumeration.
   */
  lemma ExampleFlagsScenario()
    ensures var r := MarkFlags(NormalizeEnumeration(ExampleFlags));
            && r.Enumeration? && r.name == ExampleFlags.name && r.isFlags && !r.ignored && |r.items| == 3
            && !r.items[0].ignored && !r.items[1].ignored && r.items[2].ignored
  {
    ExampleNormalized();
    ExampleIsCandidate();
  }

  /** The sentinel pass ignores COUNT and keeps None and A. */
  lemma ExampleNormalized()
    ensures var n := NormalizeEnumeration(ExampleFlags);
            && n.Enumeration? && n.name == ExampleFlags.name && !n.isFlags && !n.ignored && |n.items| == 3
            && !n.items[0].ignored && !n.items[1].ignored && n.items[2].ignored
  {
    ExampleNotPrivate();
    NoneIsNoSentinel();
    AIsNoSentinel();
    CountIsSentinel();
  }

  lemma ExampleNotPrivate()
    ensures !EndsWith(ExampleFlags.name, PrivateSuffix)
  {
    NotEndsWith(ExampleFlags.name, PrivateSuffix, 0);
  }

  lemma ExampleIsCandidate()
    ensures Contains(ExampleFlags.name, "Flags")
  {
    var name := ExampleFlags.name;
    assert name[7..12] == "Flags";
    assert OccursAt(name, "Flags", 7);
  }

  const Foo := Class("Foo", UnitScope(ImGuiHeader), false, [],
                     [ClassMethod("Bar", false), ClassMethod("Qux", false)], false)

  /**
   * A class Foo with methods Bar and Qux: a method rule for Foo.Bar ignores
   * Bar and touches nothing else, and a rule for Foo.Baz fails with no match.
   */
  lemma IgnoreMethodScenario()
    ensures Ignore([TranslationUnit(ImGuiHeader, [Foo])], Some("Foo"), Some("Bar"), MethodTarget)
         == Ok([TranslationUnit(ImGuiHeader, [Foo.(methods := [ClassMethod("Bar", true), ClassMethod("Qux", false)])])])
    ensures Ignore([TranslationUnit(ImGuiHeader, [Foo])], Some("Foo"), Some("Baz"), MethodTarget) == Err(NoMatch("Baz"))
  {
    var units := [TranslationUnit(ImGuiHeader, [Foo])];
    assert IsDeclOf(units, Loc(0, 0), ClassKind, "Foo");
    assert FindDecl(units, ClassKind, "Foo") == Found(Loc(0, 0));
    assert FindSingle(Foo.methods, (m: ClassMethod) => m.name == "Bar") == Found(0) by {
      assert "Qux" != "Bar";
    }
    var fooBar := Foo.(methods := [ClassMethod("Bar", true), ClassMethod("Qux", false)]);
    assert Foo.methods[0 := Foo.methods[0].(ignored := true)] == fooBar.methods;
    var r := SetDecl(units, Loc(0, 0), fooBar);
    assert r[0].decls == [fooBar];
    assert r == [TranslationUnit(ImGuiHeader, [fooBar])];
    assert IgnoreClassMethod(units, "Foo", "Bar") == Ok(r);
    assert FindSingle(Foo.methods, (m: ClassMethod) => m.name == "Baz") == Missing by {
      assert "Qux" != "Baz" && "Bar" != "Baz";
    }
  }
}
