/**
 * The generator's entry point: which generation and cleanup steps a command
 * line asks for, and the textual cleanup of a generated file.
 */
module Program {
  import opened Text

  /** One literal StringBuilder.Replace call of the cleanup. */
  datatype Step = Step(pattern: string, replacement: string)

  /** The replace calls of the cleanup, in the order they are made. */
  const CleanupSteps: seq<Step> := [
    Step("imgui", "ImGui"),
    Step("\"ImGui\"", "\"imgui\""),
    Step("public __IntPtr __Instance { get; protected set; }",
         "internal __IntPtr __Instance { get; set; }"),
    Step("public partial struct __Internal", "internal partial struct __Internal"),
    Step("public unsafe partial struct __Internal", "internal unsafe partial struct __Internal"),
    Step("public unsafe partial struct ImVec2", "internal unsafe partial struct ImVec2"),
    Step("public unsafe partial struct ImVec4", "internal unsafe partial struct ImVec4"),
    Step("new global::ImGuiNET.ImVec2.__Internal()", "new global::System.Numerics.Vector2()"),
    Step("new global::ImGuiNET.ImVec4.__Internal()", "new global::System.Numerics.Vector4()"),
    Step("namespace ImVector", "internal static partial class ImVector"),
    Step("}\r\nnamespace ImGuiNET.__Symbols\r\n{\r\n    internal class ImGui",
         "    public unsafe partial class ImGui"),
    Step("public static IntPtr _EmptyString_ImGuiTextBuffer__2PADA",
         "internal static IntPtr _EmptyString_ImGuiTextBuffer__2PADA"),
    Step(".__Symbols", "")
  ]

  predicate LiteralPatterns(steps: seq<Step>) {
    forall k | 0 <= k < |steps| :: |steps[k].pattern| > 0
  }

  /** The text after applying `steps` one after the other, each a full replace-all over the previous result. */
  function ApplySteps(text: string, steps: seq<Step>): string
    requires LiteralPatterns(steps)
    decreases |steps|
  {
    if steps == [] then text
    else
      var last := steps[|steps| - 1];
      ReplaceAll(ApplySteps(text, steps[..|steps| - 1]), last.pattern, last.replacement)
  }

  /** The cleaned text of a generated file. */
  function Cleaned(text: string): string {
    ApplySteps(text, CleanupSteps)
  }

  /**
   * Cleanup(path): when the file exists its text is loaded into one
   * StringBuilder, run through the replace calls of CleanupSteps in order and
   * written back; otherwise nothing happens. The file system is the map
   * `files` from paths to contents.
   */
  method Cleanup(files: map<string, string>, path: string) returns (written: map<string, string>)
    ensures path !in files ==> written == files
    ensures path in files ==> written == files[path := Cleaned(files[path])]
  {
    if path !in files {
      return files;
    }
    var builder := new StringBuilder(files[path]);
    ApplyEach(builder, CleanupSteps);
    written := files[path := builder.ToString()];
  }

  /** The replace calls of `steps`, made one after the other on one buffer. */
  method ApplyEach(builder: StringBuilder, steps: seq<Step>)
    requires LiteralPatterns(steps)
    modifies builder
    ensures builder.content == ApplySteps(old(builder.content), steps)
  {
    ghost var text := builder.content;
    for k := 0 to |steps|
      invariant builder.content == ApplySteps(text, steps[..k])
    {
      builder.Replace(steps[k].pattern, steps[k].replacement);
      assert steps[..k + 1][..k] == steps[..k];
    }
    assert steps[..|steps|] == steps;
  }

  /** The lengths of the cleanup literals that the examples below rely on. */
  lemma PatternLengths()
    ensures |CleanupSteps| == 13
    ensures |CleanupSteps[0].pattern| == 5 && |CleanupSteps[1].pattern| == 7
    ensures forall k | 2 <= k < 12 :: |CleanupSteps[k].pattern| > 10
    ensures |CleanupSteps[12].pattern| == 10
  {
  }

  /** Applying a list of steps in two parts is applying the second part to the result of the first. */
  lemma {:induction false} ApplyStepsAppend(text: string, first: seq<Step>, second: seq<Step>)
    requires LiteralPatterns(first) && LiteralPatterns(second)
    ensures LiteralPatterns(first + second)
    ensures ApplySteps(text, first + second) == ApplySteps(ApplySteps(text, first), second)
    decreases |second|
  {
    if second != [] {
      var init := second[..|second| - 1];
      assert (first + second)[..|first + second| - 1] == first + init;
      ApplyStepsAppend(text, first, init);
    } else {
      assert first + second == first;
    }
  }

  /** Text in which no step's pattern occurs passes through the steps unchanged. */
  lemma {:induction false} ApplyStepsWithoutPatterns(text: string, steps: seq<Step>)
    requires LiteralPatterns(steps)
    requires forall k | 0 <= k < |steps| :: !Contains(text, steps[k].pattern)
    ensures ApplySteps(text, steps) == text
    decreases |steps|
  {
    if steps != [] {
      var init := steps[..|steps| - 1];
      ApplyStepsWithoutPatterns(text, init);
      ReplaceAllWithoutOccurrence(text, steps[|steps| - 1].pattern, steps[|steps| - 1].replacement);
    }
  }

  /** Text containing none of the cleanup literals is returned unchanged. */
  lemma CleanedWithoutLiterals(text: string)
    requires forall k | 0 <= k < |CleanupSteps| :: !Contains(text, CleanupSteps[k].pattern)
    ensures Cleaned(text) == text
  {
    ApplyStepsWithoutPatterns(text, CleanupSteps);
  }

  /** A pattern longer than the text cannot occur in it. */
  lemma LongerPatternAbsent(text: string, pat: string)
    requires |text| < |pat|
    ensures !Contains(text, pat)
  {
  }

  /** A pattern whose first character does not appear in the text cannot occur in it. */
  lemma FirstCharAbsent(text: string, pat: string)
    requires |pat| > 0
    requires forall i | 0 <= i < |text| :: text[i] != pat[0]
    ensures !Contains(text, pat)
  {
    forall i: nat | i < |text| ensures !OccursAt(text, pat, i) {
      assert text[i] != pat[0];
    }
  }

  /** Text shorter than every pattern from step `from` on is left alone by those steps. */
  lemma {:induction false} ShortTextKeptFrom(text: string, from: nat)
    requires from <= |CleanupSteps|
    requires forall k | from <= k < |CleanupSteps| :: |text| < |CleanupSteps[k].pattern|
    ensures ApplySteps(text, CleanupSteps[from..]) == text
  {
    var rest := CleanupSteps[from..];
    forall k | 0 <= k < |rest| ensures !Contains(text, rest[k].pattern) {
      LongerPatternAbsent(text, rest[k].pattern);
    }
    ApplyStepsWithoutPatterns(text, rest);
  }

  /**
   * Order matters: a quoted "imgui" is first turned into "ImGui" by the first
   * step and then restored by the second.
   */
  lemma QuotedNameRestored()
    ensures Cleaned("\"imgui\"") == "\"imgui\""
  {
    var text := "\"imgui\"";
    var first := CleanupSteps[..2];
    assert first == [Step("imgui", "ImGui"), Step("\"ImGui\"", "\"imgui\"")];
    ApplyTwoSteps(text, first);
    FirstStepInsideQuotes();
    QuotesRestored();
    FirstSteps(text, 2);
    PatternLengths();
    ShortTextKeptFrom(text, 2);
  }

  lemma ApplyOneStep(text: string, steps: seq<Step>)
    requires |steps| == 1 && LiteralPatterns(steps)
    ensures ApplySteps(text, steps) == ReplaceAll(text, steps[0].pattern, steps[0].replacement)
  {
    assert steps[..0] == [];
  }

  lemma ApplyTwoSteps(text: string, steps: seq<Step>)
    requires |steps| == 2 && LiteralPatterns(steps)
    ensures ApplySteps(text, steps) ==
            ReplaceAll(ReplaceAll(text, steps[0].pattern, steps[0].replacement), steps[1].pattern, steps[1].replacement)
  {
    ApplyOneStep(text, steps[..1]);
  }

  lemma FirstStepInsideQuotes()
    ensures ReplaceAll("\"imgui\"", "imgui", "ImGui") == "\"ImGui\""
  {
    ReplaceAllLeadingMatch("imgui", "\"", "ImGui");
    assert "\"imgui\""[1..] == "imgui" + "\"";
  }

  lemma QuotesRestored()
    ensures ReplaceAll("\"ImGui\"", "\"ImGui\"", "\"imgui\"") == "\"imgui\""
  {
    ReplaceAllLeadingMatch("\"ImGui\"", "", "\"imgui\"");
    assert "\"ImGui\"" + "" == "\"ImGui\"";
  }

  /** The whole cleanup is its first `n` steps followed by the rest. */
  lemma FirstSteps(text: string, n: nat)
    requires n <= |CleanupSteps|
    ensures Cleaned(text) == ApplySteps(ApplySteps(text, CleanupSteps[..n]), CleanupSteps[n..])
  {
    SplitSteps(text, CleanupSteps, n);
  }

  lemma SplitSteps(text: string, steps: seq<Step>, n: nat)
    requires n <= |steps| && LiteralPatterns(steps)
    ensures ApplySteps(text, steps) == ApplySteps(ApplySteps(text, steps[..n]), steps[n..])
  {
    ApplyStepsAppend(text, steps[..n], steps[n..]);
    assert steps[..n] + steps[n..] == steps;
  }

  /** An unquoted "imgui" ends as "ImGui". */
  lemma UnquotedNameCapitalised()
    ensures Cleaned("imgui") == "ImGui"
  {
    var text := "imgui";
    assert CleanupSteps[..1] == [Step("imgui", "ImGui")];
    ApplyOneStep(text, CleanupSteps[..1]);
    ReplaceAllLeadingMatch("imgui", "", "ImGui");
    assert text + "" == text;
    assert ReplaceAll("", "imgui", "ImGui") == "";
    assert ApplySteps(text, CleanupSteps[..1]) == "ImGui";
    FirstSteps(text, 1);
    PatternLengths();
    ShortTextKeptFrom("ImGui", 1);
  }

  /**
   * A replacement is not rescanned: "imguimgui" becomes "ImGuimgui", which
   * again contains "imgui".
   */
  lemma ReplacementNotRescanned()
    ensures Cleaned("imguimgui") == "ImGuimgui"
    ensures Contains(Cleaned("imguimgui"), "imgui")
  {
    var text := "imguimgui";
    FirstStepOnce(text);
    FirstSteps(text, 1);
    KeptAfterFirstStep();
    ImGuimguiContainsName();
  }

  lemma ImGuimguiContainsName()
    ensures Contains("ImGuimgui", "imgui")
  {
    var r := "ImGuimgui";
    assert r[4..9] == "imgui" by {
      assert r[4] == 'i' && r[5] == 'm' && r[6] == 'g' && r[7] == 'u' && r[8] == 'i';
    }
    assert OccursAt(r, "imgui", 4);
  }

  lemma FirstStepOnce(text: string)
    requires text == "imguimgui"
    ensures ApplySteps(text, CleanupSteps[..1]) == "ImGuimgui"
  {
    assert ReplaceAll("mgui", "imgui", "ImGui") == "mgui";
    assert text[..5] == "imgui" && text[5..] == "mgui";
  }

  lemma KeptAfterFirstStep()
    ensures ApplySteps("ImGuimgui", CleanupSteps[1..]) == "ImGuimgui"
  {
    var text := "ImGuimgui";
    var rest := CleanupSteps[1..];
    forall k | 0 <= k < |rest| ensures !Contains(text, rest[k].pattern) {
      if k == 0 {
        FirstCharAbsent(text, "\"ImGui\"");
      } else {
        LongerPatternAbsent(text, rest[k].pattern);
      }
    }
    ApplyStepsWithoutPatterns(text, rest);
  }

  /**
   * Cleanup is not idempotent: cleaning the cleaned "imguimgui" once more
   * replaces the "imgui" that the first pass left behind.
   */
  lemma CleanupNotIdempotent()
    ensures Cleaned("imguimgui") == "ImGuimgui"
    ensures Cleaned("ImGuimgui") == "ImGuImGui"
    ensures Cleaned(Cleaned("imguimgui")) != Cleaned("imguimgui")
  {
    ReplacementNotRescanned();
    CleanedAgain();
    assert "ImGuImGui"[4] != "ImGuimgui"[4];
  }

  lemma CleanedAgain()
    ensures Cleaned("ImGuimgui") == "ImGuImGui"
  {
    var text := "ImGuimgui";
    FirstTwoSteps(text);
    CapitalisedAgain();
    NoQuotedName();
    ReplaceAllWithoutOccurrence("ImGuImGui", "\"ImGui\"", "\"imgui\"");
    FirstSteps(text, 2);
    PatternLengths();
    ShortTextKeptFrom("ImGuImGui", 2);
  }

  lemma NoQuotedName()
    ensures !Contains("ImGuImGui", "\"ImGui\"")
  {
    FirstCharAbsent("ImGuImGui", "\"ImGui\"");
  }

  /** The first two steps capitalise "imgui" and then restore it where it was quoted. */
  lemma FirstTwoSteps(text: string)
    ensures ApplySteps(text, CleanupSteps[..2]) ==
            ReplaceAll(ReplaceAll(text, "imgui", "ImGui"), "\"ImGui\"", "\"imgui\"")
  {
    var first := CleanupSteps[..2];
    assert first == [Step("imgui", "ImGui"), Step("\"ImGui\"", "\"imgui\"")];
    ApplyTwoSteps(text, first);
  }

  /** The first step finds the "imgui" that the previous cleanup left in "ImGuimgui". */
  lemma CapitalisedAgain()
    ensures ReplaceAll("ImGuimgui", "imgui", "ImGui") == "ImGuImGui"
  {
    var p, r := "imgui", "ImGui";
    ReplaceAllLeadingMatch(p, "", r);
    assert p + "" == p && r + "" == r;
    ReplaceAllCopiesPrefix("ImGu", p, p, r);
    assert "ImGu" + p == "ImGuimgui";
    assert "ImGu" + r == "ImGuImGui";
  }

  /** The last step deletes ".__Symbols". */
  lemma SymbolsQualifierDeleted()
    ensures Cleaned(".__Symbols") == ""
  {
    var text := ".__Symbols";
    FirstCharAbsent(text, "imgui");
    FirstCharAbsent(text, "\"ImGui\"");
    var first := CleanupSteps[..12];
    forall k | 0 <= k < 12 ensures !Contains(text, first[k].pattern) {
      if k >= 2 {
        LongerPatternAbsent(text, first[k].pattern);
      }
    }
    ApplyStepsWithoutPatterns(text, first);
    assert CleanupSteps[..13][..12] == first;
    assert CleanupSteps[..13] == CleanupSteps;
  }

  /** One thing a run of the generator does, in the order of the list it is in. */
  datatype Action =
    | ShowUsage                         // show the available flags
    | Generate(enhanced: bool)          // run the binding generator; false: OLD variant, true: NEW variant
    | CleanupGenerated(folder: string)  // Cleanup of imgui.cs in that folder of the current directory

  /** Upper-casing used by StringComparer.OrdinalIgnoreCase, restricted to ASCII letters. */
  function ToUpperAscii(c: char): char {
    if 'a' <= c <= 'z' then (c as int - 32) as char else c
  }

  /** StringComparer.OrdinalIgnoreCase.Equals. */
  predicate EqualsIgnoreCase(a: string, b: string) {
    |a| == |b| && forall i | 0 <= i < |a| :: ToUpperAscii(a[i]) == ToUpperAscii(b[i])
  }

  /** args.Contains(flag, StringComparer.OrdinalIgnoreCase). */
  predicate HasFlag(args: seq<string>, flag: string) {
    exists i | 0 <= i < |args| :: EqualsIgnoreCase(args[i], flag)
  }

  /** The actions the entry point performs for the argument list `args`. */
  function Plan(args: seq<string>): seq<Action> {
    if |args| == 0 then [ShowUsage]
    else
      (if HasFlag(args, "-old") then [Generate(false)] else [])
      + (if HasFlag(args, "-new") then [Generate(true)] else [])
      + (if HasFlag(args, "-cln") then [CleanupGenerated("NEW"), CleanupGenerated("OLD")] else [])
  }

  /** The linear search behind args.Contains(flag, StringComparer.OrdinalIgnoreCase). */
  method ContainsIgnoreCase(args: seq<string>, flag: string) returns (found: bool)
    ensures found <==> exists i | 0 <= i < |args| :: EqualsIgnoreCase(args[i], flag)
  {
    found := false;
    var i := 0;
    while i < |args| && !found
      invariant 0 <= i <= |args|
      invariant found <==> exists j | 0 <= j < i :: EqualsIgnoreCase(args[j], flag)
    {
      found := EqualsIgnoreCase(args[i], flag);
      i := i + 1;
    }
  }

  /**
   * Main(args): with no arguments only the usage is shown; otherwise each mode
   * flag that is present triggers its step, old before new before cleanup,
   * and cleanup handles the NEW output before the OLD one.
   */
  method Dispatch(args: seq<string>) returns (actions: seq<Action>)
    ensures actions == Plan(args)
  {
    if |args| == 0 {
      return [ShowUsage];
    }
    actions := [];
    var oldFlag := ContainsIgnoreCase(args, "-old");
    if oldFlag {
      actions := actions + [Generate(false)];
    }
    var newFlag := ContainsIgnoreCase(args, "-new");
    if newFlag {
      actions := actions + [Generate(true)];
    }
    var cleanFlag := ContainsIgnoreCase(args, "-cln");
    if cleanFlag {
      actions := actions + [CleanupGenerated("NEW"), CleanupGenerated("OLD")];
    }
  }

  /** Without arguments only the usage is shown; with arguments it never is. */
  lemma UsageExactlyWithoutArguments(args: seq<string>)
    ensures ShowUsage in Plan(args) <==> |args| == 0
    ensures |args| == 0 ==> forall a | a in Plan(args) :: !a.Generate? && !a.CleanupGenerated?
  {
  }

  /** Position of an action in the fixed order of the entry point. */
  function Rank(a: Action): nat {
    match a
    case ShowUsage => 0
    case Generate(enhanced) => if enhanced then 2 else 1
    case CleanupGenerated(folder) => if folder == "NEW" then 3 else 4
  }

  /** The actions always come in the fixed order old, new, cleanup of NEW, cleanup of OLD, each at most once. */
  lemma PlanInFixedOrder(args: seq<string>)
    ensures forall i, j | 0 <= i < j < |Plan(args)| :: Rank(Plan(args)[i]) < Rank(Plan(args)[j])
  {
  }

  /** Reordering the arguments does not change what is done. */
  lemma PlanIgnoresArgumentOrder(a: seq<string>, b: seq<string>)
    requires multiset(a) == multiset(b)
    ensures Plan(a) == Plan(b)
  {
    assert |a| == |multiset(a)| == |multiset(b)| == |b|;
    forall flag: string ensures HasFlag(a, flag) ==> HasFlag(b, flag) {
      FlagInPermutation(a, b, flag);
    }
    forall flag: string ensures HasFlag(b, flag) ==> HasFlag(a, flag) {
      FlagInPermutation(b, a, flag);
    }
  }

  lemma FlagInPermutation(a: seq<string>, b: seq<string>, flag: string)
    requires multiset(a) == multiset(b)
    ensures HasFlag(a, flag) ==> HasFlag(b, flag)
  {
    if HasFlag(a, flag) {
      var i :| 0 <= i < |a| && EqualsIgnoreCase(a[i], flag);
      assert a[i] in multiset(b);
      var j :| 0 <= j < |b| && b[j] == a[i];
    }
  }

  /** Flags are compared ignoring case: re-casing the arguments does not change what is done. */
  lemma PlanIgnoresCase(a: seq<string>, b: seq<string>)
    requires |a| == |b|
    requires forall i | 0 <= i < |a| :: EqualsIgnoreCase(a[i], b[i])
    ensures Plan(a) == Plan(b)
  {
    forall flag: string, i | 0 <= i < |a|
      ensures EqualsIgnoreCase(a[i], flag) <==> EqualsIgnoreCase(b[i], flag)
    {
      assert |a[i]| == |b[i]|;
    }
    assert forall flag: string :: HasFlag(a, flag) == HasFlag(b, flag);
  }
}
