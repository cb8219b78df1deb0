/**
 File-name search: a `*`/`?` glob is compiled to a SQL LIKE pattern by five successive replacements.
 The two pattern languages are given their own meanings, and compilation is shown to preserve them.
 */
module Glob {
  import opened Options

  /** str.replace(c, put) for a one-character c. */
  function Replace(s: string, c: char, put: string): string {
    if s == "" then "" else (if s[0] == c then put else [s[0]]) + Replace(s[1..], c, put)
  }

  function GlobToLikePattern(glob: string): string {
    var pattern := Replace(glob, '\\', "\\\\");
    var pattern := Replace(pattern, '%', "\\%");
    var pattern := Replace(pattern, '_', "\\_");
    var pattern := Replace(pattern, '*', "%");
    var pattern := Replace(pattern, '?', "_");
    pattern
  }

  /** When two characters count as the same: ILIKE's case folding, whatever it is. */
  type Folding = (char, char) -> bool

  /** What a glob means: `*` stands for some stretch of the name, `?` for one character. */
  ghost predicate GlobMatches(eq: Folding, glob: string, name: string)
    decreases |glob|
  {
    if glob == "" then name == ""
    else if glob[0] == '*' then
      exists k :: 0 <= k <= |name| && GlobMatches(eq, glob[1..], name[k..])
    else
      && name != ""
      && (glob[0] == '?' || eq(glob[0], name[0]))
      && GlobMatches(eq, glob[1..], name[1..])
  }

  /** name ILIKE pattern ESCAPE '\': the database's left-to-right scan. */
  predicate LikeMatches(eq: Folding, pattern: string, name: string)
    decreases |pattern| + |name|
  {
    if pattern == "" then name == ""
    else if pattern[0] == '%' then
      LikeMatches(eq, pattern[1..], name) || (name != "" && LikeMatches(eq, pattern, name[1..]))
    else if name == "" then false
    else if pattern[0] == '_' then LikeMatches(eq, pattern[1..], name[1..])
    else if pattern[0] == '\\' then
      |pattern| > 1 && eq(pattern[1], name[0]) && LikeMatches(eq, pattern[2..], name[1..])
    else eq(pattern[0], name[0]) && LikeMatches(eq, pattern[1..], name[1..])
  }

  /** A pattern the database accepts: every escape is followed by a character that needs one. */
  ghost predicate WellEscaped(pattern: string) {
    if pattern == "" then true
    else if pattern[0] == '\\' then |pattern| > 1 && pattern[1] in "\\%_" && WellEscaped(pattern[2..])
    else WellEscaped(pattern[1..])
  }

  /** search_files keeps a file; the LIKE condition is skipped for the pattern `%`. */
  predicate SearchKeeps(eq: Folding, glob: string, name: string) {
    var pattern := GlobToLikePattern(glob);
    pattern != "%" ==> LikeMatches(eq, pattern, name)
  }

  // ---------- the five replacements act on each character alone ----------

  /** What the five replacements together make of one character. */
  function Image(c: char): string {
    if c == '*' then "%" else if c == '?' then "_" else if c in "\\%_" then ['\\', c] else [c]
  }

  lemma {:induction false} ReplaceConcat(s: string, t: string, c: char, put: string)
    ensures Replace(s + t, c, put) == Replace(s, c, put) + Replace(t, c, put)
  {
    if s == "" {
      assert s + t == t;
    } else {
      assert (s + t)[1..] == s[1..] + t;
      ReplaceConcat(s[1..], t, c, put);
    }
  }

  lemma ReplaceOne(s: char, c: char, put: string)
    ensures Replace([s], c, put) == if s == c then put else [s]
  {
  }

  lemma ReplaceTwo(s: string, c: char, put: string)
    requires |s| == 2
    ensures Replace(s, c, put) == (if s[0] == c then put else [s[0]]) + (if s[1] == c then put else [s[1]])
  {
    assert s[1..] == [s[1]];
    assert Replace(s[1..], c, put) == if s[1] == c then put else [s[1]];
  }

  lemma CompileConcat(s: string, t: string)
    ensures GlobToLikePattern(s + t) == GlobToLikePattern(s) + GlobToLikePattern(t)
  {
    var s1, t1 := Replace(s, '\\', "\\\\"), Replace(t, '\\', "\\\\");
    var s2, t2 := Replace(s1, '%', "\\%"), Replace(t1, '%', "\\%");
    var s3, t3 := Replace(s2, '_', "\\_"), Replace(t2, '_', "\\_");
    var s4, t4 := Replace(s3, '*', "%"), Replace(t3, '*', "%");
    ReplaceConcat(s, t, '\\', "\\\\");
    ReplaceConcat(s1, t1, '%', "\\%");
    ReplaceConcat(s2, t2, '_', "\\_");
    ReplaceConcat(s3, t3, '*', "%");
    ReplaceConcat(s4, t4, '?', "_");
  }

  /** Later replacements do not disturb what earlier ones produced for a single character. */
  lemma CompileChar(c: char)
    ensures GlobToLikePattern([c]) == Image(c)
  {
    var e := ['\\', c];
    ReplaceOne(c, '\\', "\\\\");
    ReplaceOne(c, '%', "\\%");
    ReplaceTwo(e, '%', "\\%");
    ReplaceOne(c, '_', "\\_");
    ReplaceTwo(e, '_', "\\_");
    ReplaceOne(c, '*', "%");
    ReplaceTwo(e, '*', "%");
    ReplaceOne(c, '?', "_");
    ReplaceTwo(e, '?', "_");
    ReplaceOne('%', '?', "_");
  }

  lemma CompileStep(glob: string)
    requires glob != ""
    ensures GlobToLikePattern(glob) == Image(glob[0]) + GlobToLikePattern(glob[1..])
  {
    assert glob == [glob[0]] + glob[1..];
    CompileConcat([glob[0]], glob[1..]);
    CompileChar(glob[0]);
  }

  // ---------- meaning is preserved ----------

  /** Splitting off a stretch for `*` is the same as giving it nothing or one more character. */
  lemma StarStep(eq: Folding, glob: string, name: string)
    requires glob != "" && glob[0] == '*'
    ensures GlobMatches(eq, glob, name) <==>
              GlobMatches(eq, glob[1..], name) || (name != "" && GlobMatches(eq, glob, name[1..]))
  {
    if GlobMatches(eq, glob, name) {
      var k :| 0 <= k <= |name| && GlobMatches(eq, glob[1..], name[k..]);
      if k > 0 {
        assert name[1..][k - 1..] == name[k..];
      } else {
        assert name[0..] == name;
      }
    }
    if GlobMatches(eq, glob[1..], name) {
      assert name[0..] == name;
    } else if name != "" && GlobMatches(eq, glob, name[1..]) {
      var k :| 0 <= k <= |name| - 1 && GlobMatches(eq, glob[1..], name[1..][k..]);
      assert name[1..][k..] == name[k + 1..];
    }
  }

  /** For every glob and every name, the compiled pattern matches exactly when the glob does. */
  lemma {:induction false} CompilePreservesMatching(eq: Folding, glob: string, name: string)
    ensures LikeMatches(eq, GlobToLikePattern(glob), name) <==> GlobMatches(eq, glob, name)
    decreases |glob| + |name|
  {
    if glob != "" {
      CompileStep(glob);
      var rest := GlobToLikePattern(glob[1..]);
      var pattern := GlobToLikePattern(glob);
      if glob[0] == '*' {
        assert pattern[1..] == rest;
        StarStep(eq, glob, name);
        CompilePreservesMatching(eq, glob[1..], name);
        if name != "" {
          CompilePreservesMatching(eq, glob, name[1..]);
        }
      } else if name != "" {
        assert pattern[|Image(glob[0])|..] == rest;
        CompilePreservesMatching(eq, glob[1..], name[1..]);
      }
    }
  }

  lemma {:induction false} CompiledIsWellEscaped(glob: string)
    ensures WellEscaped(GlobToLikePattern(glob))
  {
    if glob != "" {
      CompileStep(glob);
      CompiledIsWellEscaped(glob[1..]);
      var pattern := GlobToLikePattern(glob);
      assert pattern[|Image(glob[0])|..] == GlobToLikePattern(glob[1..]);
    }
  }

  /** Only the glob `*` compiles to the pattern for which the filter is skipped. */
  lemma SkipsOnlyForStar(glob: string)
    ensures GlobToLikePattern(glob) == "%" <==> glob == "*"
  {
    if glob == "*" {
      CompileChar('*');
    } else if glob != "" {
      CompileStep(glob);
      if |glob| > 1 {
        CompileStep(glob[1..]);
      } else {
        assert glob == [glob[0]];
        CompileChar(glob[0]);
      }
    }
  }

  lemma {:induction false} StarMatchesAll(eq: Folding, name: string)
    ensures GlobMatches(eq, "*", name)
  {
    assert name[|name|..] == "";
    assert GlobMatches(eq, "*"[1..], name[|name|..]);
  }

  /** Search returns exactly the names the glob matches, with the skipped filter included. */
  lemma SearchKeepsExactlyMatches(eq: Folding, glob: string, name: string)
    ensures SearchKeeps(eq, glob, name) <==> GlobMatches(eq, glob, name)
  {
    SkipsOnlyForStar(glob);
    StarMatchesAll(eq, name);
    CompilePreservesMatching(eq, glob, name);
  }

  // ---------- fnmatch, with its character classes ----------

  /** Where the first ']' at or after `from` is. */
  function FindClose(s: string, from: nat): (r: Option<nat>)
    ensures r.Some? ==> from <= r.value < |s| && s[r.value] == ']'
    decreases |s| - from
  {
    if from >= |s| then None else if s[from] == ']' then Some(from) else FindClose(s, from + 1)
  }

  /** The length of the class body at the start of s, after a '['; a leading ! and a ']' right after it belong to it. */
  function ClassLength(s: string): (r: Option<nat>)
    ensures r.Some? ==> 0 < r.value < |s|
  {
    var n := if s != "" && s[0] == '!' then 1 else 0;
    FindClose(s, if n < |s| && s[n] == ']' then n + 1 else n)
  }

  predicate OpensClass(glob: string) {
    glob != "" && glob[0] == '[' && ClassLength(glob[1..]).Some?
  }

  function ClassBody(glob: string): string
    requires OpensClass(glob)
  {
    glob[1..][..ClassLength(glob[1..]).value]
  }

  function AfterClass(glob: string): (rest: string)
    requires OpensClass(glob)
    ensures |rest| + |ClassBody(glob)| + 2 == |glob|
  {
    glob[1..][ClassLength(glob[1..]).value + 1..]
  }

  lemma {:induction false} FindCloseIsFirst(s: string, from: nat)
    ensures var r := FindClose(s, from);
            if r.Some? then forall k :: from <= k < r.value ==> s[k] != ']'
            else forall k :: from <= k < |s| ==> s[k] != ']'
    decreases |s| - from
  {
    if from < |s| && s[from] != ']' { FindCloseIsFirst(s, from + 1); }
  }

  /** The place closes a class: a ']' after the '[' and at least one more character, a leading '!' not counted. */
  ghost predicate Closes(glob: string, k: nat) {
    2 <= k < |glob| && glob[k] == ']' && (glob[1] == '!' ==> k > 2)
  }

  /** A '[' opens a class exactly when some ']' can close it, and the class goes up to the first that can. */
  lemma OpensClassIff(glob: string)
    requires glob != "" && glob[0] == '['
    ensures OpensClass(glob) <==> exists k: nat :: Closes(glob, k)
    ensures OpensClass(glob) ==>
              var n := 1 + |ClassBody(glob)|;
              Closes(glob, n) && (forall k: nat :: k < n ==> !Closes(glob, k))
              && ClassBody(glob) == glob[1..n] && AfterClass(glob) == glob[n + 1..]
  {
    var s := glob[1..];
    var n := if s != "" && s[0] == '!' then 1 else 0;
    var from := if n < |s| && s[n] == ']' then n + 1 else n;
    FindCloseIsFirst(s, from);
    forall k: nat
      ensures Closes(glob, k) <==> from < k < |glob| && s[k - 1] == ']'
    {
    }
    if OpensClass(glob) {
      var m := FindClose(s, from).value;
      assert Closes(glob, m + 1);
      assert glob[1..][..m] == glob[1..m + 1] && glob[1..][m + 1..] == glob[m + 2..];
    }
    if k: nat :| Closes(glob, k) {
      assert s[k - 1] == ']';
    }
  }

  /** Which characters a class body stands for. */
  type Classes = (string, char) -> bool

  /** fnmatch: like a glob, but a closed bracket stands for one character of its class. */
  ghost predicate FnMatches(classes: Classes, eq: Folding, glob: string, name: string)
    decreases |glob|
  {
    if glob == "" then name == ""
    else if glob[0] == '*' then
      exists k :: 0 <= k <= |name| && FnMatches(classes, eq, glob[1..], name[k..])
    else if name == "" then false
    else if OpensClass(glob) then
      classes(ClassBody(glob), name[0]) && FnMatches(classes, eq, AfterClass(glob), name[1..])
    else
      (glob[0] == '?' || eq(glob[0], name[0])) && FnMatches(classes, eq, glob[1..], name[1..])
  }

  /** A class body's characters and a-z ranges, one after the other. */
  ghost predicate InItems(eq: Folding, items: string, c: char) {
    if items == "" then false
    else if |items| >= 3 && items[1] == '-' then
      (exists d: char :: items[0] <= d <= items[2] && eq(d, c)) || InItems(eq, items[3..], c)
    else eq(items[0], c) || InItems(eq, items[1..], c)
  }

  /** The meaning Python gives a class body. */
  ghost predicate InClass(eq: Folding, body: string, c: char) {
    if body != "" && body[0] == '!' then !InItems(eq, body[1..], c) else InItems(eq, body, c)
  }

  predicate HasClass(glob: string) {
    glob != "" && (OpensClass(glob) || HasClass(glob[1..]))
  }

  // ---------- without a class the two readings agree ----------

  lemma {:induction false} NoClassAgrees(classes: Classes, eq: Folding, glob: string, name: string)
    requires !HasClass(glob)
    ensures FnMatches(classes, eq, glob, name) <==> GlobMatches(eq, glob, name)
    decreases |glob|
  {
    if glob != "" {
      if glob[0] == '*' {
        forall k | 0 <= k <= |name|
          ensures FnMatches(classes, eq, glob[1..], name[k..]) <==> GlobMatches(eq, glob[1..], name[k..])
        {
          NoClassAgrees(classes, eq, glob[1..], name[k..]);
        }
      } else if name != "" {
        NoClassAgrees(classes, eq, glob[1..], name[1..]);
      }
    }
  }

  // ---------- with one they differ on some name ----------

  /** Every class has a character. */
  ghost predicate Inhabited(classes: Classes, glob: string)
    decreases |glob|
  {
    if glob == "" then true
    else if OpensClass(glob) then (exists c :: classes(ClassBody(glob), c)) && Inhabited(classes, AfterClass(glob))
    else Inhabited(classes, glob[1..])
  }

  /** How many characters the shortest name needs, brackets taken literally or as classes. */
  function PlainLength(glob: string): nat {
    if glob == "" then 0 else (if glob[0] == '*' then 0 else 1) + PlainLength(glob[1..])
  }

  function FnLength(glob: string): nat
    decreases |glob|
  {
    if glob == "" then 0
    else if OpensClass(glob) then 1 + FnLength(AfterClass(glob))
    else (if glob[0] == '*' then 0 else 1) + FnLength(glob[1..])
  }

  lemma {:induction false} PlainLengthSplit(glob: string, n: nat)
    requires n <= |glob|
    ensures PlainLength(glob) == PlainLength(glob[..n]) + PlainLength(glob[n..])
    decreases n
  {
    if n > 0 {
      assert glob[..n][1..] == glob[1..][..n - 1] && glob[n..] == glob[1..][n - 1..];
      PlainLengthSplit(glob[1..], n - 1);
    } else {
      assert glob[..0] == "" && glob[0..] == glob;
    }
  }

  /** Read literally, a class costs at least its two brackets. */
  lemma ClassCosts(glob: string)
    requires OpensClass(glob)
    ensures PlainLength(glob) >= 2 + PlainLength(AfterClass(glob))
  {
    var s, n := glob[1..], ClassLength(glob[1..]).value;
    PlainLengthSplit(s, n);
    assert s[n] == ']' && s[n..][0] == ']' && s[n..][1..] == AfterClass(glob);
  }

  lemma {:induction false} ClassShortens(glob: string)
    ensures FnLength(glob) <= PlainLength(glob)
    ensures HasClass(glob) ==> FnLength(glob) < PlainLength(glob)
    decreases |glob|
  {
    if glob != "" {
      if OpensClass(glob) {
        ClassCosts(glob);
        ClassShortens(AfterClass(glob));
      } else {
        ClassShortens(glob[1..]);
      }
    }
  }

  lemma {:induction false} PlainNeeds(eq: Folding, glob: string, name: string)
    requires GlobMatches(eq, glob, name)
    ensures |name| >= PlainLength(glob)
    decreases |glob|
  {
    if glob != "" {
      if glob[0] == '*' {
        var k :| 0 <= k <= |name| && GlobMatches(eq, glob[1..], name[k..]);
        PlainNeeds(eq, glob[1..], name[k..]);
      } else {
        PlainNeeds(eq, glob[1..], name[1..]);
      }
    }
  }

  /** A shortest name fnmatch accepts. */
  lemma {:induction false} ShortestFnMatch(classes: Classes, eq: Folding, glob: string) returns (name: string)
    requires Inhabited(classes, glob) && forall c :: eq(c, c)
    ensures FnMatches(classes, eq, glob, name) && |name| == FnLength(glob)
    decreases |glob|
  {
    if glob == "" {
      name := "";
    } else if OpensClass(glob) {
      var c :| classes(ClassBody(glob), c);
      var rest := ShortestFnMatch(classes, eq, AfterClass(glob));
      name := [c] + rest;
      assert name[1..] == rest;
    } else {
      var rest := ShortestFnMatch(classes, eq, glob[1..]);
      name := if glob[0] == '*' then rest else [glob[0]] + rest;
      if glob[0] == '*' {
        assert name[0..] == rest;
      } else {
        assert name[1..] == rest;
      }
    }
  }

  /** The glob itself without its stars is a name the literal reading accepts. */
  lemma {:induction false} PlainMatch(eq: Folding, glob: string) returns (name: string)
    requires forall c :: eq(c, c)
    ensures GlobMatches(eq, glob, name)
  {
    if glob == "" {
      name := "";
    } else {
      var rest := PlainMatch(eq, glob[1..]);
      name := if glob[0] == '*' then rest else [glob[0]] + rest;
      if glob[0] == '*' {
        assert name[0..] == rest;
      } else {
        assert name[1..] == rest;
      }
    }
  }

  lemma {:induction false} EmptyClassMatchesNothing(classes: Classes, eq: Folding, glob: string, name: string)
    requires !Inhabited(classes, glob)
    ensures !FnMatches(classes, eq, glob, name)
    decreases |glob|
  {
    if glob != "" {
      if glob[0] == '*' {
        forall k | 0 <= k <= |name|
          ensures !FnMatches(classes, eq, glob[1..], name[k..])
        {
          EmptyClassMatchesNothing(classes, eq, glob[1..], name[k..]);
        }
      } else if name != "" && OpensClass(glob) {
        if !Inhabited(classes, AfterClass(glob)) {
          EmptyClassMatchesNothing(classes, eq, AfterClass(glob), name[1..]);
        }
      } else if name != "" {
        EmptyClassMatchesNothing(classes, eq, glob[1..], name[1..]);
      }
    }
  }

  /** A name on which the two readings of a glob with a class differ. */
  lemma ClassTellsApart(classes: Classes, eq: Folding, glob: string) returns (name: string)
    requires HasClass(glob) && forall c :: eq(c, c)
    ensures FnMatches(classes, eq, glob, name) != GlobMatches(eq, glob, name)
  {
    if Inhabited(classes, glob) {
      name := ShortestFnMatch(classes, eq, glob);
      ClassShortens(glob);
      if GlobMatches(eq, glob, name) { PlainNeeds(eq, glob, name); }
    } else {
      name := PlainMatch(eq, glob);
      EmptyClassMatchesNothing(classes, eq, glob, name);
    }
  }

  /**
   File search is documented as matching fnmatch patterns. Whatever its classes mean, and for every
   case folding, it keeps exactly the names fnmatch accepts if and only if the pattern has no class.
   */
  lemma SearchIsFnmatchIff(classes: Classes, eq: Folding, glob: string)
    requires forall c :: eq(c, c)
    ensures (forall name :: SearchKeeps(eq, glob, name) <==> FnMatches(classes, eq, glob, name)) <==> !HasClass(glob)
  {
    forall name
      ensures SearchKeeps(eq, glob, name) <==> GlobMatches(eq, glob, name)
      ensures !HasClass(glob) ==> (FnMatches(classes, eq, glob, name) <==> GlobMatches(eq, glob, name))
    {
      SearchKeepsExactlyMatches(eq, glob, name);
      if !HasClass(glob) { NoClassAgrees(classes, eq, glob, name); }
    }
    if HasClass(glob) {
      var name := ClassTellsApart(classes, eq, glob);
    }
  }

  predicate Same(x: char, y: char) {
    x == y
  }

  ghost function PythonClasses(eq: Folding): Classes {
    (body: string, c: char) => InClass(eq, body, c)
  }

  lemma AbIsClass()
    ensures OpensClass("[ab]") && ClassBody("[ab]") == "ab" && AfterClass("[ab]") == ""
  {
    var s := "[ab]"[1..];
    assert s == "ab]";
    assert FindClose(s, 2) == Some(2);
    assert FindClose(s, 1) == Some(2);
    assert FindClose(s, 0) == Some(2);
    assert s[..2] == "ab" && s[3..] == "";
  }

  /** The pattern [ab] misses a file named a, which fnmatch accepts. */
  lemma BracketsAreLiteral()
    ensures FnMatches(PythonClasses(Same), Same, "[ab]", "a") && !SearchKeeps(Same, "[ab]", "a")
  {
    var glob, name := "[ab]", "a";
    AbIsClass();
    assert InItems(Same, "ab", 'a');
    assert PythonClasses(Same)("ab", 'a');
    assert FnMatches(PythonClasses(Same), Same, AfterClass(glob), name[1..]);
    SearchKeepsExactlyMatches(Same, glob, name);
    ClassCosts(glob);
    if GlobMatches(Same, glob, name) { PlainNeeds(Same, glob, name); }
  }
}
