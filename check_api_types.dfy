/**
 * The services type checker: every service module may have a `types.ts`;
 * the names it exports as interfaces, types and enums are collected into a
 * map from type name to declaring modules and a map from module to the names
 * that break the naming rule (a type must start with its module's name,
 * first letter upper-cased). The run fails on a name declared more than once
 * or on any naming violation.
 *
 * The directory listing and file reads are inputs: each module arrives with
 * the text of its `types.ts`, or `None` when the file is missing.
 */
module CheckApiTypes {
  import opened Wrappers
  import opened Text

  // ------------------------------------------------------------ extraction

  const InterfaceKeyword := "export interface "
  const TypeKeyword := "export type "
  const EnumKeyword := "export enum "

  /** The characters of a regular expression's `\w`. */
  predicate IsWordChar(c: char) {
    'a' <= c <= 'z' || 'A' <= c <= 'Z' || '0' <= c <= '9' || c == '_'
  }

  predicate IsWord(s: string) {
    forall k :: 0 <= k < |s| ==> IsWordChar(s[k])
  }

  /** The run of word characters starting at index `i`: what a greedy `\w+` takes there. */
  function WordRun(s: string, i: nat): (r: string)
    ensures r == [] || i + |r| <= |s|
    decreases |s| - i
  {
    if i < |s| && IsWordChar(s[i]) then [s[i]] + WordRun(s, i + 1) else []
  }

  /** The run is the text at `i`, made of word characters, and it stops at a non-word character or the end. */
  lemma {:induction false} WordRunShape(s: string, i: nat)
    requires i <= |s|
    ensures i + |WordRun(s, i)| <= |s| && s[i..i + |WordRun(s, i)|] == WordRun(s, i) && IsWord(WordRun(s, i))
    ensures i + |WordRun(s, i)| < |s| ==> !IsWordChar(s[i + |WordRun(s, i)|])
    decreases |s| - i
  {
    if i < |s| && IsWordChar(s[i]) {
      WordRunShape(s, i + 1);
      assert WordRun(s, i) == [s[i]] + WordRun(s, i + 1);
    }
  }

  /** The name a match at index `i` reports: the word characters right after the keyword, or none. */
  function NameAt(s: string, keyword: string, i: nat): (name: string)
    ensures |name| > 0 ==> OccursAt(s, keyword, i) && i + |keyword| + |name| <= |s|
  {
    if OccursAt(s, keyword, i) then WordRun(s, i + |keyword|) else []
  }

  /**
   * The names a global `/<keyword>(\w+)/g` search finds from index `i` on,
   * with the keyword stripped: at each index the keyword followed by at
   * least one word character is a match, and the search resumes right
   * after it; anywhere else it moves on by one character.
   */
  function Scan(s: string, keyword: string, i: nat): (r: seq<string>)
    decreases |s| - i
  {
    if |s| <= i then []
    else if |NameAt(s, keyword, i)| > 0 then
      [NameAt(s, keyword, i)] + Scan(s, keyword, i + |keyword| + |NameAt(s, keyword, i)|)
    else
      Scan(s, keyword, i + 1)
  }

  /** The names the search finds: what it reports is `Found` in the text. */
  predicate Found(s: string, keyword: string, names: seq<string>) {
    forall k :: 0 <= k < |names| ==> |names[k]| > 0 && IsWord(names[k]) && Contains(s, keyword + names[k])
  }

  /**
   * Every name the search reports is a non-empty run of word characters
   * that stands right after an occurrence of the keyword in the text.
   */
  lemma ScanFindsDeclarations(s: string, keyword: string)
    ensures Found(s, keyword, Scan(s, keyword, 0))
  {
    forall k | 0 <= k < |Scan(s, keyword, 0)|
      ensures |Scan(s, keyword, 0)[k]| > 0 && IsWord(Scan(s, keyword, 0)[k]) && Contains(s, keyword + Scan(s, keyword, 0)[k])
    {
      ScanFindsAt(s, keyword, 0, k);
    }
  }

  /** `ScanFindsDeclarations` for the name at index `k` of the search from `i`, by induction on the search. */
  lemma {:induction false} ScanFindsAt(s: string, keyword: string, i: nat, k: nat)
    requires k < |Scan(s, keyword, i)|
    ensures |Scan(s, keyword, i)[k]| > 0 && IsWord(Scan(s, keyword, i)[k]) && Contains(s, keyword + Scan(s, keyword, i)[k])
    decreases |s| - i
  {
    assert i < |s|;
    var name := NameAt(s, keyword, i);
    if |name| > 0 {
      var next := i + |keyword| + |name|;
      assert Scan(s, keyword, i) == [name] + Scan(s, keyword, next);
      if k == 0 {
        MatchAt(s, keyword, i);
      } else {
        assert Scan(s, keyword, i)[k] == Scan(s, keyword, next)[k - 1];
        ScanFindsAt(s, keyword, next, k - 1);
      }
    } else {
      assert Scan(s, keyword, i) == Scan(s, keyword, i + 1);
      ScanFindsAt(s, keyword, i + 1, k);
    }
  }

  /** A match at index `i`: the name is a word, and the keyword followed by it occurs in the text. */
  lemma MatchAt(s: string, keyword: string, i: nat)
    requires |NameAt(s, keyword, i)| > 0
    ensures IsWord(NameAt(s, keyword, i)) && Contains(s, keyword + NameAt(s, keyword, i))
  {
    var name := NameAt(s, keyword, i);
    var j := i + |keyword|;
    WordRunShape(s, j);
    assert s[i..j + |name|] == s[i..j] + s[j..j + |name|];
    ContainsAt(s, keyword + name, i);
  }

  /** `allTypes`: every interface, then every type alias, then every enum. */
  function ExtractNames(content: string): (names: seq<string>)
    ensures forall k :: 0 <= k < |names| ==> |names[k]| > 0 && IsWord(names[k])
    ensures forall k :: 0 <= k < |names| ==>
              Contains(content, InterfaceKeyword + names[k]) || Contains(content, TypeKeyword + names[k]) ||
              Contains(content, EnumKeyword + names[k])
  {
    var interfaces, types, enums := Scan(content, InterfaceKeyword, 0), Scan(content, TypeKeyword, 0), Scan(content, EnumKeyword, 0);
    ScanFindsDeclarations(content, InterfaceKeyword);
    ScanFindsDeclarations(content, TypeKeyword);
    ScanFindsDeclarations(content, EnumKeyword);
    interfaces + types + enums
  }

  /** The run after a prefix is exactly a word that a non-word character (or the end) follows. */
  lemma {:induction false} WordRunOf(x: string, name: string, rest: string)
    requires IsWord(name) && (rest == [] || !IsWordChar(rest[0]))
    ensures WordRun(x + name + rest, |x|) == name
    decreases |name|
  {
    var s := x + name + rest;
    if name == [] {
      assert s == x + rest;
    } else {
      assert s[|x|] == name[0];
      assert s == (x + [name[0]]) + name[1..] + rest;
      WordRunOf(x + [name[0]], name[1..], rest);
    }
  }

  /** A match at the search position is reported, and the search goes on right after it. */
  lemma ScanMatch(s: string, keyword: string, i: nat)
    requires i < |s| && |NameAt(s, keyword, i)| > 0
    ensures Scan(s, keyword, i) == [NameAt(s, keyword, i)] + Scan(s, keyword, i + |keyword| + |NameAt(s, keyword, i)|)
  {
  }

  /** A declaration of `name` at the search position is a match that reports `name`. */
  lemma NameAtDeclaration(pre: string, keyword: string, name: string, rest: string)
    requires IsWord(name) && (rest == [] || !IsWordChar(rest[0]))
    ensures NameAt(pre + keyword + name + rest, keyword, |pre|) == name
  {
    var s := pre + keyword + name + rest;
    assert OccursAt(s, keyword, |pre|) by {
      assert s[|pre|..|pre| + |keyword|] == keyword;
    }
    WordRunOf(pre + keyword, name, rest);
  }

  /** A character that cannot start the keyword is skipped. */
  lemma ScanSkip(s: string, keyword: string, i: nat)
    requires i < |s| && |keyword| > 0 && keyword[0] != s[i]
    ensures Scan(s, keyword, i) == Scan(s, keyword, i + 1)
  {
    assert !OccursAt(s, keyword, i) by {
      if i + |keyword| <= |s| {
        assert s[i..i + |keyword|][0] == s[i];
      }
    }
  }

  /** One line of a types file: `export interface`, `export type` or `export enum`, then a name. */
  datatype TypeDeclaration = TypeDeclaration(keyword: string, name: string)

  predicate IsKeyword(keyword: string) {
    keyword in [InterfaceKeyword, TypeKeyword, EnumKeyword]
  }

  predicate WellFormed(d: TypeDeclaration) {
    IsKeyword(d.keyword) && |d.name| > 0 && IsWord(d.name)
  }

  /** A types file holding the declarations one per line, in order. */
  function Source(decls: seq<TypeDeclaration>): string {
    if decls == [] then [] else decls[0].keyword + decls[0].name + "\n" + Source(decls[1..])
  }

  /** The names declared with `keyword`, in file order. */
  function NamesDeclaredWith(decls: seq<TypeDeclaration>, keyword: string): seq<string> {
    if decls == [] then []
    else (if decls[0].keyword == keyword then [decls[0].name] else []) + NamesDeclaredWith(decls[1..], keyword)
  }

  /** The shape every keyword has: `export `, a word, a space. */
  predicate KeywordLike(keyword: string) {
    && |keyword| >= 12 && keyword[0] == 'e' && keyword[1] == 'x' && keyword[6] == ' ' && keyword[|keyword| - 1] == ' '
    && (forall t :: 2 <= t < |keyword| ==> keyword[t] != 'x')
    && (forall t :: 0 <= t < |keyword| ==> keyword[t] != '\n')
  }

  /** The three keywords have that shape, and two different ones differ right after `export `. */
  lemma KeywordShape(keyword: string, other: string)
    requires IsKeyword(keyword) && IsKeyword(other)
    ensures KeywordLike(keyword)
    ensures keyword != other ==> keyword[7] != other[7]
  {
  }

  lemma Mismatch(s: string, keyword: string, j: nat, t: nat)
    requires t < |keyword| && j + t < |s| && s[j + t] != keyword[t]
    ensures !OccursAt(s, keyword, j)
  {
    if j + |keyword| <= |s| {
      assert s[j..j + |keyword|][t] == s[j + t];
    }
  }

  /** A keyword never occurs inside a line declared with another one, not even across its end. */
  lemma NoMatchInLine(s: string, keyword: string, other: string, name: string, start: nat, j: nat)
    requires KeywordLike(keyword) && KeywordLike(other) && keyword[7] != other[7]
    requires |name| > 0 && IsWord(name)
    requires start + |other| + |name| < |s|
    requires s[start..start + |other|] == other && s[start + |other|..start + |other| + |name|] == name
    requires s[start + |other| + |name|] == '\n'
    requires start <= j <= start + |other| + |name|
    ensures !OccursAt(s, keyword, j)
  {
    var k := |other|;
    var p := start + k + |name|;
    if j < start + k {
      assert s[start..start + k][j - start] == s[j];
      if j == start {
        assert s[start..start + k][7] == s[j + 7];
        Mismatch(s, keyword, j, 7);
      } else if s[j] != keyword[0] {
        Mismatch(s, keyword, j, 0);
      } else {
        assert s[start..start + k][j - start + 1] == s[j + 1];
        Mismatch(s, keyword, j, 1);
      }
    } else if j + 6 < p {
      assert s[start + k..p][j + 6 - start - k] == s[j + 6];
      Mismatch(s, keyword, j, 6);
    } else {
      Mismatch(s, keyword, j, p - j);
    }
  }

  /** A stretch without any occurrence of the keyword is passed over. */
  lemma {:induction false} ScanSkipRange(s: string, keyword: string, i: nat, n: nat)
    requires i + n <= |s|
    requires forall j :: i <= j < i + n ==> !OccursAt(s, keyword, j)
    ensures Scan(s, keyword, i) == Scan(s, keyword, i + n)
    decreases n
  {
    if n > 0 {
      assert !OccursAt(s, keyword, i);
      ScanSkipRange(s, keyword, i + 1, n - 1);
    }
  }

  /** A line declared with another keyword reports nothing, and the search resumes at the next line. */
  lemma ScanOtherLine(pre: string, other: string, name: string, later: string, keyword: string)
    requires KeywordLike(keyword) && KeywordLike(other) && keyword[7] != other[7]
    requires |name| > 0 && IsWord(name)
    ensures Scan(pre + other + name + (['\n'] + later), keyword, |pre|) ==
            Scan((pre + other + name + ['\n']) + later, keyword, |pre + other + name + ['\n']|)
  {
    var s := pre + other + name + (['\n'] + later);
    var p := |pre| + |other| + |name|;
    assert s[|pre|..|pre| + |other|] == other;
    assert s[|pre| + |other|..p] == name;
    assert s[p] == '\n';
    forall j | |pre| <= j <= p
      ensures !OccursAt(s, keyword, j)
    {
      NoMatchInLine(s, keyword, other, name, |pre|, j);
    }
    ScanSkipRange(s, keyword, |pre|, p + 1 - |pre|);
    assert s == (pre + other + name + ['\n']) + later;
  }

  /** The search for one keyword over declaration lines that follow text it has passed. */
  lemma {:induction false} ScanSourceAfter(pre: string, decls: seq<TypeDeclaration>, keyword: string)
    requires KeywordLike(keyword)
    requires forall k :: 0 <= k < |decls| ==>
               && KeywordLike(decls[k].keyword) && |decls[k].name| > 0 && IsWord(decls[k].name)
               && (decls[k].keyword == keyword || decls[k].keyword[7] != keyword[7])
    ensures Scan(pre + Source(decls), keyword, |pre|) == NamesDeclaredWith(decls, keyword)
    decreases |decls|
  {
    if decls == [] {
      assert pre + Source(decls) == pre;
    } else {
      var d, later := decls[0], Source(decls[1..]);
      assert pre + Source(decls) == pre + d.keyword + d.name + (['\n'] + later);
      if d.keyword == keyword {
        ScanDeclarationLine(pre, keyword, d.name, later);
      } else {
        ScanOtherLine(pre, d.keyword, d.name, later, keyword);
      }
      ScanSourceAfter(pre + d.keyword + d.name + ['\n'], decls[1..], keyword);
    }
  }

  /** Extraction with one keyword finds exactly the names declared with it, each once, in file order. */
  lemma ScanSource(decls: seq<TypeDeclaration>, keyword: string)
    requires IsKeyword(keyword)
    requires forall k :: 0 <= k < |decls| ==> WellFormed(decls[k])
    ensures Scan(Source(decls), keyword, 0) == NamesDeclaredWith(decls, keyword)
  {
    KeywordShape(keyword, keyword);
    forall k | 0 <= k < |decls|
      ensures KeywordLike(decls[k].keyword)
      ensures decls[k].keyword == keyword || decls[k].keyword[7] != keyword[7]
    {
      KeywordShape(decls[k].keyword, keyword);
    }
    ScanSourceAfter([], decls, keyword);
    assert [] + Source(decls) == Source(decls);
  }

  /** One declaration line: its name is reported, and the search resumes at the next line. */
  lemma ScanDeclarationLine(pre: string, keyword: string, name: string, later: string)
    requires |keyword| > 0 && keyword[0] != '\n'
    requires |name| > 0 && IsWord(name)
    ensures Scan(pre + keyword + name + (['\n'] + later), keyword, |pre|) ==
            [name] + Scan((pre + keyword + name + ['\n']) + later, keyword, |pre + keyword + name + ['\n']|)
  {
    var s := pre + keyword + name + (['\n'] + later);
    NameAtDeclaration(pre, keyword, name, ['\n'] + later);
    ScanMatch(s, keyword, |pre|);
    var p := |pre| + |keyword| + |name|;
    assert s[p] == '\n';
    ScanSkip(s, keyword, p);
    assert s == (pre + keyword + name + ['\n']) + later;
  }

  /**
   * Extraction inverts writing declarations out: from a file of declaration
   * lines with mixed keywords, `allTypes` is the interface names in file
   * order, then the type names, then the enum names.
   */
  lemma ExtractDeclarations(decls: seq<TypeDeclaration>)
    requires forall k :: 0 <= k < |decls| ==> WellFormed(decls[k])
    ensures ExtractNames(Source(decls)) ==
              NamesDeclaredWith(decls, InterfaceKeyword) + NamesDeclaredWith(decls, TypeKeyword) +
              NamesDeclaredWith(decls, EnumKeyword)
  {
    ScanSource(decls, InterfaceKeyword);
    ScanSource(decls, TypeKeyword);
    ScanSource(decls, EnumKeyword);
  }

  /** Interfaces come first even when a type alias is declared before them. */
  lemma InterfacesBeforeTypes()
    ensures ExtractNames(Source([TypeDeclaration(TypeKeyword, "B"), TypeDeclaration(InterfaceKeyword, "A")])) == ["A", "B"]
  {
    var b, a := TypeDeclaration(TypeKeyword, "B"), TypeDeclaration(InterfaceKeyword, "A");
    KeywordShape(TypeKeyword, InterfaceKeyword);
    ExtractDeclarations([b, a]);
    assert [b, a][1..] == [a];
    assert NamesDeclaredWith([a], InterfaceKeyword) == ["A"];
    assert NamesDeclaredWith([a], TypeKeyword) == [];
    assert NamesDeclaredWith([a], EnumKeyword) == [];
  }

  // ------------------------------------------------------- specification

  /** A service directory and the text of its `types.ts`, if it has one. */
  datatype ServiceModule = ServiceModule(name: string, typesFile: Option<string>)

  /** One exported name and the module whose `types.ts` declares it. */
  datatype Decl = Decl(typeName: string, moduleName: string)

  /** `moduleName.charAt(0).toUpperCase() + moduleName.slice(1)` */
  function ModulePrefix(moduleName: string): string {
    Capitalize(moduleName)
  }

  predicate FollowsNaming(d: Decl) {
    StartsWith(d.typeName, ModulePrefix(d.moduleName))
  }

  function DeclsOf(m: ServiceModule): (decls: seq<Decl>)
    ensures m.typesFile.None? ==> decls == []
    ensures m.typesFile.Some? ==> |decls| == |ExtractNames(m.typesFile.value)|
    ensures forall k :: 0 <= k < |decls| ==> decls[k] == Decl(ExtractNames(m.typesFile.value)[k], m.name)
  {
    match m.typesFile
    case None => []
    case Some(content) =>
      var names := ExtractNames(content);
      seq(|names|, k requires 0 <= k < |names| => Decl(names[k], m.name))
  }

  /** Every declaration, module by module, in the order the modules are visited. */
  function Declared(modules: seq<ServiceModule>): seq<Decl> {
    if modules == [] then []
    else Declared(modules[..|modules| - 1]) + DeclsOf(modules[|modules| - 1])
  }

  function TypeNames(decls: seq<Decl>): (names: seq<string>)
    ensures |names| == |decls|
    ensures forall k :: 0 <= k < |decls| ==> names[k] == decls[k].typeName
  {
    if decls == [] then [] else TypeNames(decls[..|decls| - 1]) + [decls[|decls| - 1].typeName]
  }

  function ModuleNames(decls: seq<Decl>): (names: seq<string>)
    ensures |names| == |decls|
    ensures forall k :: 0 <= k < |decls| ==> names[k] == decls[k].moduleName
  {
    if decls == [] then [] else ModuleNames(decls[..|decls| - 1]) + [decls[|decls| - 1].moduleName]
  }

  function Lookup(m: map<string, seq<string>>, key: string): seq<string> {
    if key in m then m[key] else []
  }

  /** The modules of the declarations of `typeName`, in declaration order. */
  function ModulesDeclaring(decls: seq<Decl>, typeName: string): seq<string> {
    if decls == [] then []
    else
      var d := decls[|decls| - 1];
      ModulesDeclaring(decls[..|decls| - 1], typeName) + (if d.typeName == typeName then [d.moduleName] else [])
  }

  /** `typeMap` after the given declarations: each declaration appends its module to its name's list. */
  function TypeMapOf(decls: seq<Decl>): map<string, seq<string>> {
    if decls == [] then map[]
    else
      var d := decls[|decls| - 1];
      var before := TypeMapOf(decls[..|decls| - 1]);
      before[d.typeName := Lookup(before, d.typeName) + [d.moduleName]]
  }

  /** The order in which `typeMap` first saw each name. */
  function KeyOrder(decls: seq<Decl>): seq<string> {
    if decls == [] then []
    else
      var t := decls[|decls| - 1].typeName;
      var before := KeyOrder(decls[..|decls| - 1]);
      if t in before then before else before + [t]
  }

  /** `namingViolations` after the given declarations. */
  function ViolationsOf(decls: seq<Decl>): map<string, seq<string>> {
    if decls == [] then map[]
    else
      var d := decls[|decls| - 1];
      var before := ViolationsOf(decls[..|decls| - 1]);
      if FollowsNaming(d) then before
      else before[d.moduleName := Lookup(before, d.moduleName) + [d.typeName]]
  }

  /** The order in which `namingViolations` first saw each module. */
  function ViolationOrder(decls: seq<Decl>): seq<string> {
    if decls == [] then []
    else
      var d := decls[|decls| - 1];
      var before := ViolationOrder(decls[..|decls| - 1]);
      if FollowsNaming(d) || d.moduleName in before then before else before + [d.moduleName]
  }

  /** The names, in `order`, whose list holds more than one module. */
  function DuplicatesOf(order: seq<string>, typeMap: map<string, seq<string>>): (duplicates: seq<string>)
    ensures forall t :: t in duplicates <==> t in order && |Lookup(typeMap, t)| > 1
  {
    if order == [] then []
    else
      var t := order[|order| - 1];
      var before := DuplicatesOf(order[..|order| - 1], typeMap);
      assert order == order[..|order| - 1] + [t];
      if |Lookup(typeMap, t)| > 1 then before + [t] else before
  }

  /** The lists of the names in `order`, one after the other. */
  function Flatten(order: seq<string>, typeMap: map<string, seq<string>>): seq<string> {
    if order == [] then []
    else Flatten(order[..|order| - 1], typeMap) + Lookup(typeMap, order[|order| - 1])
  }

  /** The run passes: no name is declared twice and every name follows the naming rule. */
  predicate Passes(decls: seq<Decl>) {
    && (forall t :: t in TypeNames(decls) ==> multiset(TypeNames(decls))[t] <= 1)
    && (forall k :: 0 <= k < |decls| ==> FollowsNaming(decls[k]))
  }

  // --------------------------------------------------------------- lemmas

  /**
   * The keys of `typeMap` are exactly the declared names, and each list holds
   * one entry per declaration of its name.
   */
  lemma {:induction false} TypeMapShape(decls: seq<Decl>)
    ensures forall t :: t in TypeMapOf(decls) <==> t in TypeNames(decls)
    ensures forall t :: |Lookup(TypeMapOf(decls), t)| == multiset(TypeNames(decls))[t]
  {
    if decls != [] {
      var front := decls[..|decls| - 1];
      TypeMapShape(front);
      assert TypeNames(decls) == TypeNames(front) + [decls[|decls| - 1].typeName];
    }
  }

  /** A module is listed for a name exactly when it declares that name. */
  lemma {:induction false} ModulesDeclaringShape(decls: seq<Decl>, typeName: string)
    ensures forall m :: m in ModulesDeclaring(decls, typeName) <==> Decl(typeName, m) in decls
  {
    if decls != [] {
      var front := decls[..|decls| - 1];
      ModulesDeclaringShape(front, typeName);
      assert decls == front + [decls[|decls| - 1]];
    }
  }

  /**
   * Each `typeMap` list holds the modules that declare its name, in
   * declaration order, one entry per declaration.
   */
  lemma {:induction false} TypeMapContents(decls: seq<Decl>)
    ensures forall t :: Lookup(TypeMapOf(decls), t) == ModulesDeclaring(decls, t)
    ensures forall t, m :: m in Lookup(TypeMapOf(decls), t) <==> Decl(t, m) in decls
  {
    if decls != [] {
      TypeMapContents(decls[..|decls| - 1]);
    }
    forall t
      ensures forall m :: m in ModulesDeclaring(decls, t) <==> Decl(t, m) in decls
    {
      ModulesDeclaringShape(decls, t);
    }
  }

  /** `typeMap`'s insertion order lists every key once. */
  lemma {:induction false} KeyOrderShape(decls: seq<Decl>)
    ensures forall t :: t in KeyOrder(decls) <==> t in TypeNames(decls)
    ensures forall i, j :: 0 <= i < j < |KeyOrder(decls)| ==> KeyOrder(decls)[i] != KeyOrder(decls)[j]
  {
    if decls != [] {
      var front := decls[..|decls| - 1];
      KeyOrderShape(front);
      assert TypeNames(decls) == TypeNames(front) + [decls[|decls| - 1].typeName];
    }
  }

  /**
   * A module's violation list holds exactly its names that miss its prefix,
   * and a module is a key only when its list is non-empty.
   */
  lemma {:induction false} ViolationsShape(decls: seq<Decl>)
    ensures forall m :: m in ViolationsOf(decls) ==> |ViolationsOf(decls)[m]| > 0
    ensures forall m, t :: t in Lookup(ViolationsOf(decls), m) <==>
              Decl(t, m) in decls && !FollowsNaming(Decl(t, m))
  {
    if decls != [] {
      var front := decls[..|decls| - 1];
      ViolationsShape(front);
      assert decls == front + [decls[|decls| - 1]];
    }
  }

  /** The violation order lists exactly the modules with violations. */
  lemma {:induction false} ViolationOrderShape(decls: seq<Decl>)
    ensures forall m :: m in ViolationOrder(decls) <==> m in ViolationsOf(decls)
  {
    if decls != [] {
      ViolationOrderShape(decls[..|decls| - 1]);
    }
  }

  /** A key has been put in an order exactly when it is in the map the order belongs to. */
  lemma OrdersTrackKeys(decls: seq<Decl>, t: string, m: string)
    ensures t in KeyOrder(decls) <==> t in TypeMapOf(decls)
    ensures m in ViolationOrder(decls) <==> m in ViolationsOf(decls)
  {
    TypeMapShape(decls);
    KeyOrderShape(decls);
    ViolationOrderShape(decls);
  }

  /** A module without `types.ts` contributes nothing. */
  lemma MissingTypesFileContributesNothing(modules: seq<ServiceModule>, name: string)
    ensures Declared(modules + [ServiceModule(name, None)]) == Declared(modules)
  {
    assert (modules + [ServiceModule(name, None)])[..|modules|] == modules;
  }

  /** The duplicates are exactly the names declared more than once. */
  lemma DuplicatesAreRepeatedNames(decls: seq<Decl>, t: string)
    ensures t in DuplicatesOf(KeyOrder(decls), TypeMapOf(decls)) <==> multiset(TypeNames(decls))[t] > 1
  {
    TypeMapShape(decls);
    KeyOrderShape(decls);
  }

  lemma AppendOne(decls: seq<Decl>, t: string, m: string)
    ensures Lookup(TypeMapOf(decls + [Decl(t, m)]), t) == Lookup(TypeMapOf(decls), t) + [m]
  {
    assert (decls + [Decl(t, m)])[..|decls|] == decls;
  }

  /** A name declared twice by the same module is listed twice and so is a duplicate. */
  lemma RepeatInOneModule(decls: seq<Decl>, t: string, m: string)
    ensures Lookup(TypeMapOf(decls + [Decl(t, m), Decl(t, m)]), t) == Lookup(TypeMapOf(decls), t) + [m, m]
    ensures t in DuplicatesOf(KeyOrder(decls + [Decl(t, m), Decl(t, m)]), TypeMapOf(decls + [Decl(t, m), Decl(t, m)]))
  {
    var once := decls + [Decl(t, m)];
    var twice := once + [Decl(t, m)];
    assert decls + [Decl(t, m), Decl(t, m)] == twice;
    AppendOne(decls, t, m);
    AppendOne(once, t, m);
    KeyOrderShape(twice);
    assert TypeNames(twice)[|twice| - 1] == t;
  }

  lemma {:induction false} FlattenOutside(order: seq<string>, typeMap: map<string, seq<string>>, t: string, v: seq<string>)
    requires t !in order
    ensures Flatten(order, typeMap[t := v]) == Flatten(order, typeMap)
  {
    if order != [] {
      FlattenOutside(order[..|order| - 1], typeMap, t, v);
    }
  }

  lemma {:induction false} FlattenAppend(order: seq<string>, typeMap: map<string, seq<string>>, t: string, m: string)
    requires multiset(order)[t] == 1
    ensures multiset(Flatten(order, typeMap[t := Lookup(typeMap, t) + [m]])) == multiset(Flatten(order, typeMap)) + multiset{m}
  {
    var front := order[..|order| - 1];
    assert multiset(order) == multiset(front) + multiset{order[|order| - 1]} by {
      assert order == front + [order[|order| - 1]];
    }
    if order[|order| - 1] == t {
      AppendAtLast(order, typeMap, t, m);
    } else {
      FlattenAppend(front, typeMap, t, m);
      AppendBeforeLast(order, typeMap, t, m);
    }
  }

  /** `FlattenAppend` when the grown list belongs to the last key. */
  lemma AppendAtLast(order: seq<string>, typeMap: map<string, seq<string>>, t: string, m: string)
    requires order != [] && order[|order| - 1] == t && t !in order[..|order| - 1]
    ensures multiset(Flatten(order, typeMap[t := Lookup(typeMap, t) + [m]])) == multiset(Flatten(order, typeMap)) + multiset{m}
  {
    var grown := typeMap[t := Lookup(typeMap, t) + [m]];
    var front := order[..|order| - 1];
    FlattenOutside(front, typeMap, t, Lookup(typeMap, t) + [m]);
    assert Flatten(order, grown) == Flatten(front, typeMap) + (Lookup(typeMap, t) + [m]);
    assert Flatten(order, typeMap) == Flatten(front, typeMap) + Lookup(typeMap, t);
  }

  /** `FlattenAppend` when the grown list belongs to an earlier key, given the claim for the earlier keys. */
  lemma AppendBeforeLast(order: seq<string>, typeMap: map<string, seq<string>>, t: string, m: string)
    requires order != [] && order[|order| - 1] != t
    requires multiset(Flatten(order[..|order| - 1], typeMap[t := Lookup(typeMap, t) + [m]])) ==
               multiset(Flatten(order[..|order| - 1], typeMap)) + multiset{m}
    ensures multiset(Flatten(order, typeMap[t := Lookup(typeMap, t) + [m]])) == multiset(Flatten(order, typeMap)) + multiset{m}
  {
    var grown := typeMap[t := Lookup(typeMap, t) + [m]];
    var front := order[..|order| - 1];
    var last := order[|order| - 1];
    assert Lookup(grown, last) == Lookup(typeMap, last);
    assert Flatten(order, grown) == Flatten(front, grown) + Lookup(typeMap, last);
    assert Flatten(order, typeMap) == Flatten(front, typeMap) + Lookup(typeMap, last);
  }


  /** A key of a list of distinct keys occurs in it exactly once. */
  lemma {:induction false} DistinctCount(order: seq<string>, t: string)
    requires t in order
    requires forall i, j :: 0 <= i < j < |order| ==> order[i] != order[j]
    ensures multiset(order)[t] == 1
  {
    var last := order[|order| - 1];
    var front := order[..|order| - 1];
    assert order == front + [last];
    DistinctFront(order, front);
    if last != t {
      assert t in front;
      DistinctCount(front, t);
    }
  }

  lemma DistinctFront(order: seq<string>, front: seq<string>)
    requires order != [] && front == order[..|order| - 1]
    requires forall i, j :: 0 <= i < j < |order| ==> order[i] != order[j]
    ensures forall i, j :: 0 <= i < j < |front| ==> front[i] != front[j]
    ensures order[|order| - 1] !in front
  {
  }

  /** The per-module counts add up to the entries of all `typeMap` lists, one per declaration. */
  lemma {:induction false} CountsMatchDeclarations(decls: seq<Decl>)
    ensures multiset(Flatten(KeyOrder(decls), TypeMapOf(decls))) == multiset(ModuleNames(decls))
  {
    if decls != [] {
      var d := decls[|decls| - 1];
      var front := decls[..|decls| - 1];
      CountsMatchDeclarations(front);
      KeyOrderShape(front);
      var order, before := KeyOrder(front), TypeMapOf(front);
      var after := before[d.typeName := Lookup(before, d.typeName) + [d.moduleName]];
      assert TypeMapOf(decls) == after;
      assert ModuleNames(decls) == ModuleNames(front) + [d.moduleName];
      if d.typeName in order {
        assert KeyOrder(decls) == order;
        DistinctCount(order, d.typeName);
        FlattenAppend(order, before, d.typeName, d.moduleName);
        assert multiset(Flatten(order, after)) == multiset(ModuleNames(front)) + multiset{d.moduleName};
      } else {
        TypeMapShape(front);
        assert KeyOrder(decls) == order + [d.typeName];
        assert (order + [d.typeName])[..|order|] == order;
        assert Lookup(after, d.typeName) == [d.moduleName];
        FlattenOutside(order, before, d.typeName, [d.moduleName]);
        assert Flatten(order + [d.typeName], after) == Flatten(order, before) + [d.moduleName];
      }
    }
  }

  /** The verdict: the run passes exactly when there are no duplicates and no violations. */
  lemma Verdict(decls: seq<Decl>)
    ensures Passes(decls) <==>
              |DuplicatesOf(KeyOrder(decls), TypeMapOf(decls))| == 0 && |ViolationsOf(decls)| == 0
  {
    var duplicates := DuplicatesOf(KeyOrder(decls), TypeMapOf(decls));
    var violations := ViolationsOf(decls);
    ViolationsShape(decls);
    if |duplicates| > 0 {
      DuplicatesAreRepeatedNames(decls, duplicates[0]);
    }
    if |violations| > 0 {
      var m :| m in violations;
      var t := violations[m][0];
      assert t in Lookup(violations, m);
    }
    if !Passes(decls) {
      if t :| t in TypeNames(decls) && multiset(TypeNames(decls))[t] > 1 {
        DuplicatesAreRepeatedNames(decls, t);
      } else {
        var k :| 0 <= k < |decls| && !FollowsNaming(decls[k]);
        assert decls[k].typeName in Lookup(violations, decls[k].moduleName);
      }
    }
  }

  // --------------------------------------------------------------- checker

  /** The two maps the checker fills, each with the order in which its keys were first set. */
  datatype Tables = Tables(
    typeMap: map<string, seq<string>>,
    typeOrder: seq<string>,
    namingViolations: map<string, seq<string>>,
    violationOrder: seq<string>)

  function TablesOf(decls: seq<Decl>): Tables {
    Tables(TypeMapOf(decls), KeyOrder(decls), ViolationsOf(decls), ViolationOrder(decls))
  }

  /**
   * One step of `allTypes.forEach`: a name that misses the module prefix is
   * appended to the module's violations, and the module is appended to the
   * name's `typeMap` list, each list created on first use.
   */
  method Record(tables: Tables, d: Decl, ghost done: seq<Decl>) returns (next: Tables)
    requires tables == TablesOf(done)
    ensures next == TablesOf(done + [d])
  {
    OrdersTrackKeys(done, d.typeName, d.moduleName);
    var typeMap, typeOrder := tables.typeMap, tables.typeOrder;
    var violations, violationOrder := tables.namingViolations, tables.violationOrder;
    if !StartsWith(d.typeName, ModulePrefix(d.moduleName)) {
      if d.moduleName !in violations {
        violations := violations[d.moduleName := []];
        violationOrder := violationOrder + [d.moduleName];
      }
      violations := violations[d.moduleName := violations[d.moduleName] + [d.typeName]];
    }
    if d.typeName !in typeMap {
      typeMap := typeMap[d.typeName := []];
      typeOrder := typeOrder + [d.typeName];
    }
    typeMap := typeMap[d.typeName := typeMap[d.typeName] + [d.moduleName]];
    assert (done + [d])[..|done|] == done;
    next := Tables(typeMap, typeOrder, violations, violationOrder);
  }

  /**
   * The body of `modules.forEach` for a module with a `types.ts`: its
   * declarations (`allTypes`, each with the module's name) are recorded in order.
   */
  method RecordModule(tables: Tables, decls: seq<Decl>, ghost done: seq<Decl>) returns (next: Tables)
    requires tables == TablesOf(done)
    ensures next == TablesOf(done + decls)
  {
    next := tables;
    ghost var recorded := done;
    var j := 0;
    while j < |decls|
      invariant 0 <= j <= |decls|
      invariant recorded == done + decls[..j]
      invariant next == TablesOf(recorded)
    {
      next := Record(next, decls[j], recorded);
      assert decls[..j + 1] == decls[..j] + [decls[j]];
      recorded := recorded + [decls[j]];
      j := j + 1;
    }
    assert decls[..j] == decls;
  }

  /** `duplicates`: the names, in `typeMap` order, whose list is longer than one. */
  method FindDuplicates(typeMap: map<string, seq<string>>, typeOrder: seq<string>) returns (duplicates: seq<string>)
    requires forall t :: t in typeOrder ==> t in typeMap
    ensures duplicates == DuplicatesOf(typeOrder, typeMap)
  {
    duplicates := [];
    var k := 0;
    while k < |typeOrder|
      invariant 0 <= k <= |typeOrder|
      invariant duplicates == DuplicatesOf(typeOrder[..k], typeMap)
    {
      assert typeOrder[..k + 1][..k] == typeOrder[..k];
      if |typeMap[typeOrder[k]]| > 1 {
        duplicates := duplicates + [typeOrder[k]];
      }
      k := k + 1;
    }
    assert typeOrder[..k] == typeOrder;
  }

  /** `moduleTypeCounts`: one count per entry of every `typeMap` list, kept as a multiset of module names. */
  method CountModules(typeMap: map<string, seq<string>>, typeOrder: seq<string>) returns (counts: multiset<string>)
    requires forall t :: t in typeOrder ==> t in typeMap
    ensures counts == multiset(Flatten(typeOrder, typeMap))
  {
    counts := multiset{};
    var k := 0;
    while k < |typeOrder|
      invariant 0 <= k <= |typeOrder|
      invariant counts == multiset(Flatten(typeOrder[..k], typeMap))
    {
      var list := typeMap[typeOrder[k]];
      var l := 0;
      while l < |list|
        invariant 0 <= l <= |list|
        invariant counts == multiset(Flatten(typeOrder[..k], typeMap)) + multiset(list[..l])
      {
        assert list[..l + 1] == list[..l] + [list[l]];
        counts := counts + multiset{list[l]};
        l := l + 1;
      }
      assert list[..l] == list;
      assert typeOrder[..k + 1][..k] == typeOrder[..k];
      k := k + 1;
    }
    assert typeOrder[..k] == typeOrder;
  }

  datatype Report = Report(
    missingTypesFile: seq<string>,
    tables: Tables,
    duplicates: seq<string>,
    moduleCount: nat,
    typeCount: nat,
    moduleTypeCounts: multiset<string>,
    exitCode: int)

  /** The modules the checker warns about for lacking `types.ts`, in order. */
  function MissingTypesFile(modules: seq<ServiceModule>): seq<string> {
    if modules == [] then []
    else
      var m := modules[|modules| - 1];
      MissingTypesFile(modules[..|modules| - 1]) + if m.typesFile.None? then [m.name] else []
  }

  /** The loop over the service directories: the missing `types.ts` warnings and both maps. */
  method RecordAll(modules: seq<ServiceModule>) returns (missing: seq<string>, tables: Tables)
    ensures missing == MissingTypesFile(modules)
    ensures tables == TablesOf(Declared(modules))
  {
    missing := [];
    tables := Tables(map[], [], map[], []);
    ghost var done: seq<Decl> := [];
    var i := 0;
    while i < |modules|
      invariant 0 <= i <= |modules|
      invariant done == Declared(modules[..i])
      invariant missing == MissingTypesFile(modules[..i])
      invariant tables == TablesOf(done)
    {
      assert modules[..i + 1][..i] == modules[..i];
      if modules[i].typesFile.None? {
        missing := missing + [modules[i].name];
        assert done + DeclsOf(modules[i]) == done;
      } else {
        tables := RecordModule(tables, DeclsOf(modules[i]), done);
      }
      done := done + DeclsOf(modules[i]);
      i := i + 1;
    }
    assert modules[..i] == modules;
  }

  /**
   * The checker run over the service modules. The exit code is 0 exactly
   * when no name is declared twice and every name starts with its module's
   * prefix; `moduleTypeCounts[m]` counts `m`'s declarations.
   */
  method Check(modules: seq<ServiceModule>) returns (report: Report)
    ensures var decls := Declared(modules);
      && report.missingTypesFile == MissingTypesFile(modules)
      && report.tables == TablesOf(decls)
      && report.duplicates == DuplicatesOf(KeyOrder(decls), TypeMapOf(decls))
      && report.moduleCount == |modules|
      && report.typeCount == |TypeMapOf(decls)|
      && report.moduleTypeCounts == multiset(ModuleNames(decls))
      && report.exitCode == if Passes(decls) then 0 else 1
  {
    if |modules| == 0 {
      return Report([], Tables(map[], [], map[], []), [], 0, 0, multiset{}, 0);
    }
    var missing, tables := RecordAll(modules);
    ghost var done := Declared(modules);
    TypeMapShape(done);
    KeyOrderShape(done);

    var duplicates := FindDuplicates(tables.typeMap, tables.typeOrder);
    var counts := CountModules(tables.typeMap, tables.typeOrder);
    CountsMatchDeclarations(done);
    Verdict(done);
    var hasError := |duplicates| > 0 || |tables.namingViolations| > 0;
    report := Report(missing, tables, duplicates, |modules|, |tables.typeMap|, counts, if hasError then 1 else 0);
  }
}
