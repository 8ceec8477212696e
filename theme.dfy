/**
 * Theme tokens (src/utils/theme.ts): the `--name: value` declarations of the
 * `@theme` blocks, their categories, references to them in values, the
 * dotted paths of `theme()` calls, and the ranking of similar tokens.
 */
module Theme {
  import opened Wrappers
  import opened Strings
  import opened Ast
  import opened Levenshtein

  /** A token: its name (the custom property), its trimmed value, and where it was declared. */
  datatype ThemeValue = ThemeValue(name: string, value: string, loc: Loc)

  // ---------------------------------------------------------------------
  // `Map<string, ThemeValue>`: entries in insertion order, keyed by name

  function Keys(m: seq<ThemeValue>): (r: seq<string>)
    ensures |r| == |m| && forall i :: 0 <= i < |m| ==> r[i] == m[i].name
  {
    if m == [] then [] else [m[0].name] + Keys(m[1..])
  }

  predicate DistinctKeys(m: seq<ThemeValue>)
  {
    forall i, j :: 0 <= i < j < |m| ==> m[i].name != m[j].name
  }

  /** `m.get(key)`. */
  function Get(m: seq<ThemeValue>, key: string): (r: Option<ThemeValue>)
    ensures r.None? <==> key !in Keys(m)
    ensures r.Some? ==> r.value in m && r.value.name == key
  {
    if m == [] then None else if m[0].name == key then Some(m[0]) else Get(m[1..], key)
  }

  /**
   * `m.set(v.name, v)`: a new key goes to the end; an existing key keeps its
   * place and takes the new value.
   */
  function Put(m: seq<ThemeValue>, v: ThemeValue): (r: seq<ThemeValue>)
    ensures Keys(r) == if v.name in Keys(m) then Keys(m) else Keys(m) + [v.name]
    ensures forall k :: Get(r, k) == if k == v.name then Some(v) else Get(m, k)
  {
    if m == [] then [v]
    else if m[0].name == v.name then [v] + m[1..]
    else
      var r := [m[0]] + Put(m[1..], v);
      assert r[1..] == Put(m[1..], v);
      r
  }

  /** Setting a key keeps the keys distinct. */
  lemma PutDistinct(m: seq<ThemeValue>, v: ThemeValue)
    requires DistinctKeys(m)
    ensures DistinctKeys(Put(m, v))
  {
    var ks := Keys(m);
    KeysDistinct(m);
    KeysDistinct(Put(m, v));
    if v.name !in ks {
      var ks' := ks + [v.name];
      forall i, j | 0 <= i < j < |ks'| ensures ks'[i] != ks'[j] {
        assert ks'[i] == ks[i];
        if j < |ks| { assert ks'[j] == ks[j]; }
      }
    }
  }

  predicate DistinctNames(ks: seq<string>)
  {
    forall i, j :: 0 <= i < j < |ks| ==> ks[i] != ks[j]
  }

  lemma KeysDistinct(m: seq<ThemeValue>)
    ensures DistinctKeys(m) <==> DistinctNames(Keys(m))
  {
    var ks := Keys(m);
    assert forall i :: 0 <= i < |m| ==> ks[i] == m[i].name;
  }

  /** The map after setting every entry of `vs`, in order. */
  function PutAll(m: seq<ThemeValue>, vs: seq<ThemeValue>): seq<ThemeValue>
  {
    if vs == [] then m else Put(PutAll(m, vs[..|vs| - 1]), vs[|vs| - 1])
  }

  /** The last entry of `vs` named `key`. */
  function LastNamed(vs: seq<ThemeValue>, key: string): (r: Option<ThemeValue>)
    ensures r.None? <==> forall i :: 0 <= i < |vs| ==> vs[i].name != key
    ensures r.Some? ==> (exists i :: 0 <= i < |vs| && vs[i] == r.value && vs[i].name == key && forall j :: i < j < |vs| ==> vs[j].name != key)
  {
    if vs == [] then None
    else if vs[|vs| - 1].name == key then Some(vs[|vs| - 1])
    else LastNamed(vs[..|vs| - 1], key)
  }

  /** Setting a list of entries: the keys are the old ones and the new names. */
  lemma PutAllKeys(m: seq<ThemeValue>, vs: seq<ThemeValue>)
    ensures forall k :: k in Keys(PutAll(m, vs)) <==> k in Keys(m) || exists i :: 0 <= i < |vs| && vs[i].name == k
  {
    forall k ensures k in Keys(PutAll(m, vs)) <==> k in Keys(m) || exists i :: 0 <= i < |vs| && vs[i].name == k {
      PutAllKey(m, vs, k);
    }
  }

  lemma {:induction false} PutAllKey(m: seq<ThemeValue>, vs: seq<ThemeValue>, k: string)
    ensures k in Keys(PutAll(m, vs)) <==> k in Keys(m) || exists i :: 0 <= i < |vs| && vs[i].name == k
  {
    if vs != [] {
      PutAllKey(m, vs[..|vs| - 1], k);
      NamedInit(vs, vs[..|vs| - 1], k);
    }
  }

  /** A name occurs in a non-empty list iff it occurs in all but the last entry or is the last entry's. */
  lemma NamedInit(vs: seq<ThemeValue>, init: seq<ThemeValue>, k: string)
    requires vs != [] && init == vs[..|vs| - 1]
    ensures (exists i :: 0 <= i < |vs| && vs[i].name == k) <==> (exists i :: 0 <= i < |init| && init[i].name == k) || vs[|vs| - 1].name == k
  {
    if exists i :: 0 <= i < |init| && init[i].name == k {
      var i :| 0 <= i < |init| && init[i].name == k;
      assert vs[i] == init[i];
    }
    if exists i :: 0 <= i < |vs| && vs[i].name == k {
      var i :| 0 <= i < |vs| && vs[i].name == k;
      if i < |init| { assert init[i] == vs[i]; }
    }
  }

  /** Setting a list of entries: the last write of a key wins; other keys keep their old values. */
  lemma {:induction false} PutAllGet(m: seq<ThemeValue>, vs: seq<ThemeValue>, k: string)
    ensures Get(PutAll(m, vs), k) == if LastNamed(vs, k).Some? then LastNamed(vs, k) else Get(m, k)
  {
    if vs != [] {
      PutAllGet(m, vs[..|vs| - 1], k);
    }
  }

  /** Setting a list of entries keeps the keys distinct. */
  lemma {:induction false} PutAllDistinct(m: seq<ThemeValue>, vs: seq<ThemeValue>)
    requires DistinctKeys(m)
    ensures DistinctKeys(PutAll(m, vs))
  {
    if vs != [] {
      PutAllDistinct(m, vs[..|vs| - 1]);
      PutDistinct(PutAll(m, vs[..|vs| - 1]), vs[|vs| - 1]);
    }
  }

  // ---------------------------------------------------------------------
  // extractThemeValues

  /** The `@theme` at-rules of the tree, in walk order. */
  function ThemeRules(ns: seq<Node>): (r: seq<Node>)
    ensures forall x :: x in r <==> x in ns && IsAtRule(Some(x), "theme")
  {
    if ns == [] then []
    else (if IsAtRule(Some(ns[0]), "theme") then [ns[0]] else []) + ThemeRules(ns[1..])
  }

  /** A declaration that becomes a token: a custom property with a located value and a location. */
  predicate IsTokenDeclaration(d: Node)
  {
    StartsWith(d.property, "--") && d.value.Some? && d.value.value.loc.Some? && d.loc.Some?
  }

  function TokenOf(d: Node, text: string): (v: ThemeValue)
    requires IsTokenDeclaration(d)
    ensures v.name == d.property
  {
    var vloc := d.value.value.loc.value;
    ThemeValue(d.property, Trim(Slice(text, vloc.start.offset, vloc.end.offset)), d.loc.value)
  }

  /** The tokens of a list of declarations, in order. */
  function Tokens(ds: seq<Node>, text: string): seq<ThemeValue>
  {
    if ds == [] then []
    else
      var d := ds[|ds| - 1];
      Tokens(ds[..|ds| - 1], text) + (if IsTokenDeclaration(d) then [TokenOf(d, text)] else [])
  }

  /** Every token comes from a token declaration. */
  lemma {:induction false} TokensFrom(ds: seq<Node>, text: string)
    ensures forall v :: v in Tokens(ds, text) ==> exists j :: 0 <= j < |ds| && IsTokenDeclaration(ds[j]) && v == TokenOf(ds[j], text)
  {
    if ds != [] {
      var init, d := ds[..|ds| - 1], ds[|ds| - 1];
      TokensFrom(init, text);
      forall v | v in Tokens(ds, text)
        ensures exists j :: 0 <= j < |ds| && IsTokenDeclaration(ds[j]) && v == TokenOf(ds[j], text)
      {
        if v in Tokens(init, text) {
          var j :| 0 <= j < |init| && IsTokenDeclaration(init[j]) && v == TokenOf(init[j], text);
          assert ds[j] == init[j];
        } else {
          assert IsTokenDeclaration(d) && v == TokenOf(d, text);
        }
      }
    }
  }

  /** Every token declaration gives a token. */
  lemma TokensOfAll(ds: seq<Node>, text: string)
    ensures forall j :: 0 <= j < |ds| && IsTokenDeclaration(ds[j]) ==> TokenOf(ds[j], text) in Tokens(ds, text)
  {
    forall j | 0 <= j < |ds| && IsTokenDeclaration(ds[j]) ensures TokenOf(ds[j], text) in Tokens(ds, text) {
      TokenAt(ds, text, j);
    }
  }

  lemma {:induction false} TokenAt(ds: seq<Node>, text: string, j: nat)
    requires j < |ds| && IsTokenDeclaration(ds[j])
    ensures TokenOf(ds[j], text) in Tokens(ds, text)
  {
    if j < |ds| - 1 {
      var init := ds[..|ds| - 1];
      assert init[j] == ds[j];
      TokenAt(init, text, j);
      TokensGrow(ds, text, TokenOf(ds[j], text));
    } else {
      TokenLast(ds, text);
    }
  }

  /** A token of the declarations before the last is a token of them all. */
  lemma TokensGrow(ds: seq<Node>, text: string, v: ThemeValue)
    requires ds != [] && v in Tokens(ds[..|ds| - 1], text)
    ensures v in Tokens(ds, text)
  {
  }

  /** The last declaration, when it is a token declaration, gives a token. */
  lemma TokenLast(ds: seq<Node>, text: string)
    requires ds != [] && IsTokenDeclaration(ds[|ds| - 1])
    ensures TokenOf(ds[|ds| - 1], text) in Tokens(ds, text)
  {
  }

  /** The tokens of the declarations of every `@theme` rule, rule by rule. */
  function RuleTokens(rules: seq<Node>, text: string): seq<ThemeValue>
  {
    if rules == [] then []
    else RuleTokens(rules[..|rules| - 1], text) + Tokens(GetDeclarations(rules[|rules| - 1]), text)
  }

  /** `extractThemeValues(ast, sourceText)`. */
  function ThemeValues(root: Node, text: string): seq<ThemeValue>
  {
    PutAll([], RuleTokens(ThemeRules(ChildrenOfType(root, Atrule)), text))
  }

  /** A token of the rules comes from a token declaration of one of them, and each such declaration gives one. */
  lemma {:induction false} RuleTokensFacts(rules: seq<Node>, text: string)
    ensures forall v :: v in RuleTokens(rules, text) ==> exists r, d :: r in rules && d in GetDeclarations(r) && IsTokenDeclaration(d) && v == TokenOf(d, text)
    ensures forall r, d :: r in rules && d in GetDeclarations(r) && IsTokenDeclaration(d) ==> TokenOf(d, text) in RuleTokens(rules, text)
  {
    if rules != [] {
      var init := rules[..|rules| - 1];
      var last := rules[|rules| - 1];
      RuleTokensFacts(init, text);
      TokensFrom(GetDeclarations(last), text);
      TokensOfAll(GetDeclarations(last), text);
      assert forall r :: r in rules <==> r in init || r == last;
    }
  }

  /**
   * The extracted map: distinct keys; a key is present iff some `@theme`
   * rule has a token declaration of that property; and its entry is the
   * token of the last such declaration in walk order.
   */
  lemma ThemeValuesFacts(root: Node, text: string)
    ensures DistinctKeys(ThemeValues(root, text))
    ensures forall k :: k in Keys(ThemeValues(root, text)) <==> exists r, d :: r in Nodes(root) && IsAtRule(Some(r), "theme") && d in GetDeclarations(r) && IsTokenDeclaration(d) && d.property == k
    ensures forall k :: Get(ThemeValues(root, text), k) == LastNamed(RuleTokens(ThemeRules(ChildrenOfType(root, Atrule)), text), k)
    ensures forall k :: Get(ThemeValues(root, text), k).Some? ==> exists r, d :: r in Nodes(root) && IsAtRule(Some(r), "theme") && d in GetDeclarations(r) && IsTokenDeclaration(d) && Get(ThemeValues(root, text), k).value == TokenOf(d, text)
  {
    var rules := ThemeRules(ChildrenOfType(root, Atrule));
    var vs := RuleTokens(rules, text);
    PutAllKeys([], vs);
    PutAllDistinct([], vs);
    forall k ensures Get(ThemeValues(root, text), k) == LastNamed(vs, k) {
      PutAllGet([], vs, k);
    }
    RuleTokensFacts(rules, text);
    forall k ensures k in Keys(ThemeValues(root, text)) <==> exists r, d :: r in Nodes(root) && IsAtRule(Some(r), "theme") && d in GetDeclarations(r) && IsTokenDeclaration(d) && d.property == k {
      if k in Keys(ThemeValues(root, text)) {
        var i :| 0 <= i < |vs| && vs[i].name == k;
        assert vs[i] in vs;
      }
      if exists r, d :: r in Nodes(root) && IsAtRule(Some(r), "theme") && d in GetDeclarations(r) && IsTokenDeclaration(d) && d.property == k {
        var r, d :| r in Nodes(root) && IsAtRule(Some(r), "theme") && d in GetDeclarations(r) && IsTokenDeclaration(d) && d.property == k;
        var v := TokenOf(d, text);
        assert v in vs;
        var i :| 0 <= i < |vs| && vs[i] == v;
      }
    }
    forall k | Get(ThemeValues(root, text), k).Some?
      ensures exists r, d :: r in Nodes(root) && IsAtRule(Some(r), "theme") && d in GetDeclarations(r) && IsTokenDeclaration(d) && Get(ThemeValues(root, text), k).value == TokenOf(d, text)
    {
      var i :| 0 <= i < |vs| && vs[i] == LastNamed(vs, k).value;
      assert vs[i] in vs;
    }
  }

  /** Every theme name is a custom property: it starts with `--`. */
  lemma ThemeNamesCustom(root: Node, text: string)
    ensures forall i :: 0 <= i < |ThemeValues(root, text)| ==> StartsWith(ThemeValues(root, text)[i].name, "--")
  {
    var rules := ThemeRules(ChildrenOfType(root, Atrule));
    var vs := RuleTokens(rules, text);
    var tv := ThemeValues(root, text);
    forall i | 0 <= i < |tv| ensures StartsWith(tv[i].name, "--") {
      var k := tv[i].name;
      assert k in Keys(tv) by { assert Keys(tv)[i] == k; }
      assert exists j :: 0 <= j < |vs| && vs[j].name == k by { PutAllKeys([], vs); }
      var j :| 0 <= j < |vs| && vs[j].name == k;
      assert vs[j] in vs;
      RuleTokensFacts(rules, text);
    }
  }

  lemma PutAllSnoc(m: seq<ThemeValue>, vs: seq<ThemeValue>, v: ThemeValue)
    ensures PutAll(m, vs + [v]) == Put(PutAll(m, vs), v)
  {
    assert (vs + [v])[..|vs|] == vs;
  }

  lemma TokensStep(ds: seq<Node>, j: nat, text: string)
    requires j < |ds|
    ensures Tokens(ds[..j + 1], text) == Tokens(ds[..j], text) + (if IsTokenDeclaration(ds[j]) then [TokenOf(ds[j], text)] else [])
  {
    assert ds[..j + 1][..j] == ds[..j];
  }

  lemma RuleTokensStep(rules: seq<Node>, i: nat, text: string)
    requires i < |rules|
    ensures RuleTokens(rules[..i + 1], text) == RuleTokens(rules[..i], text) + Tokens(GetDeclarations(rules[i]), text)
  {
    assert rules[..i + 1][..i] == rules[..i];
  }

  lemma {:induction false} PutAllAppend(m: seq<ThemeValue>, a: seq<ThemeValue>, b: seq<ThemeValue>)
    ensures PutAll(m, a + b) == PutAll(PutAll(m, a), b)
  {
    if b == [] {
      assert a + b == a;
    } else {
      var init, v := b[..|b| - 1], b[|b| - 1];
      PutAllAppend(m, a, init);
      assert (a + b)[..|a + b| - 1] == a + init && (a + b)[|a + b| - 1] == v;
      assert PutAll(m, a + b) == Put(PutAll(m, a + init), v);
    }
  }

  /** The inner loop of `extractThemeValues`: set the token of every eligible declaration of one rule. */
  method SetTokens(m: seq<ThemeValue>, declarations: seq<Node>, text: string) returns (themeValues: seq<ThemeValue>)
    ensures themeValues == PutAll(m, Tokens(declarations, text))
  {
    themeValues := m;
    for j := 0 to |declarations|
      invariant themeValues == PutAll(m, Tokens(declarations[..j], text))
    {
      var decl := declarations[j];
      ghost var acc := Tokens(declarations[..j], text);
      TokensStep(declarations, j, text);
      if IsTokenDeclaration(decl) {
        var entry := TokenOf(decl, text);
        PutAllSnoc(m, acc, entry);
        themeValues := Put(themeValues, entry);
      } else {
        assert Tokens(declarations[..j + 1], text) == acc;
      }
    }
    assert declarations[..|declarations|] == declarations;
  }

  /** `extractThemeValues`: for each `@theme` rule, set the tokens of its declarations. */
  method ExtractThemeValues(root: Node, text: string) returns (themeValues: seq<ThemeValue>)
    ensures themeValues == ThemeValues(root, text)
  {
    var atRules := GetChildrenOfType(root, Atrule);
    var themeRules := ThemeRules(atRules);
    themeValues := [];
    for i := 0 to |themeRules|
      invariant themeValues == PutAll([], RuleTokens(themeRules[..i], text))
    {
      var declarations := GetDeclarations(themeRules[i]);
      RuleTokensStep(themeRules, i, text);
      PutAllAppend([], RuleTokens(themeRules[..i], text), Tokens(declarations, text));
      themeValues := SetTokens(themeValues, declarations, text);
    }
    assert themeRules[..|themeRules|] == themeRules;
  }

  // ---------------------------------------------------------------------
  // getThemeCategory

  datatype Category = Colors | Spacing | Sizing | Typography | Borders | Effects | Animation | Other

  /** `THEME_CATEGORIES`, in declaration order. */
  const ThemeCategories: seq<(Category, seq<string>)> := [
    (Colors, ["--color-", "--bg-", "--text-", "--border-", "--ring-", "--outline-"]),
    (Spacing, ["--spacing-", "--space-", "--gap-", "--p-", "--m-", "--w-", "--h-"]),
    (Sizing, ["--width-", "--height-", "--size-", "--min-", "--max-"]),
    (Typography, ["--font-", "--text-", "--leading-", "--tracking-"]),
    (Borders, ["--rounded-", "--border-", "--divide-"]),
    (Effects, ["--shadow-", "--opacity-", "--blur-", "--brightness-", "--contrast-"]),
    (Animation, ["--animate-", "--transition-", "--duration-", "--delay-"])]

  predicate HasPrefixIn(token: string, prefixes: seq<string>)
  {
    exists p :: p in prefixes && StartsWith(token, p)
  }

  /** The first category of `table` with a prefix of `token`, else `Category.Other`. */
  function FirstCategory(table: seq<(Category, seq<string>)>, token: string): Category
  {
    if table == [] then Category.Other
    else if HasPrefixIn(token, table[0].1) then table[0].0
    else FirstCategory(table[1..], token)
  }

  /** `Other` iff no entry has a prefix of the token; otherwise the category of the first entry that has one. */
  lemma {:induction false} FirstCategorySpec(table: seq<(Category, seq<string>)>, token: string)
    requires forall i :: 0 <= i < |table| ==> table[i].0 != Category.Other
    ensures FirstCategory(table, token) == Category.Other <==> forall i :: 0 <= i < |table| ==> !HasPrefixIn(token, table[i].1)
    ensures FirstCategory(table, token) != Category.Other ==>
      (exists i :: 0 <= i < |table| && table[i].0 == FirstCategory(table, token) && HasPrefixIn(token, table[i].1) && forall j :: 0 <= j < i ==> !HasPrefixIn(token, table[j].1))
  {
    if table != [] && !HasPrefixIn(token, table[0].1) {
      FirstCategorySpec(table[1..], token);
      assert forall i :: 1 <= i < |table| ==> table[i] == table[1..][i - 1];
      if FirstCategory(table, token) != Category.Other {
        var i :| 0 <= i < |table[1..]| && table[1..][i].0 == FirstCategory(table, token)
          && HasPrefixIn(token, table[1..][i].1) && forall j :: 0 <= j < i ==> !HasPrefixIn(token, table[1..][j].1);
        assert table[i + 1].0 == FirstCategory(table, token);
      }
    }
  }

  /** `getThemeCategory`. */
  function ThemeCategory(token: string): Category
  {
    FirstCategory(ThemeCategories, token)
  }

  /** `getThemeCategory` returns the first category, in declaration order, with a prefix of the token, and `other` when there is none. */
  lemma ThemeCategorySpec(token: string)
    ensures ThemeCategory(token) == Category.Other <==> forall i :: 0 <= i < |ThemeCategories| ==> !HasPrefixIn(token, ThemeCategories[i].1)
    ensures ThemeCategory(token) != Category.Other ==>
      (exists i :: 0 <= i < |ThemeCategories| && ThemeCategories[i].0 == ThemeCategory(token) && HasPrefixIn(token, ThemeCategories[i].1) && forall j :: 0 <= j < i ==> !HasPrefixIn(token, ThemeCategories[j].1))
  {
    FirstCategorySpec(ThemeCategories, token);
  }

  /** `--text-*` and `--border-*` are colours: the colour prefixes come first. */
  lemma ColorsShadow(token: string)
    requires StartsWith(token, "--text-") || StartsWith(token, "--border-")
    ensures ThemeCategory(token) == Colors
  {
    assert ThemeCategories[0].1[2] == "--text-" && ThemeCategories[0].1[3] == "--border-";
  }

  // ---------------------------------------------------------------------
  // hasThemeReference and extractThemeFunctions

  /** At index `i`, `open` followed by one or more characters other than `)`, then `)`. */
  predicate CallAt(s: string, i: nat, open: string)
  {
    i + |open| <= |s| && s[i..i + |open|] == open && IndexOf(s[i + |open|..], ')') > 0
  }

  /** `open[^)]+\)` matches somewhere in `s`. */
  predicate HasCall(s: string, open: string)
  {
    exists i: nat :: i <= |s| && CallAt(s, i, open)
  }

  /** `hasThemeReference`: `theme([^)]+)` or `var(--[^)]+)` somewhere in the value. */
  predicate HasThemeReference(value: string)
  {
    HasCall(value, "theme(") || HasCall(value, "var(--")
  }

  /** `theme("x")` with `x` free of `)` is a theme reference (the quotes make the argument non-empty). */
  lemma QuotedCallIsReference(pre: string, x: string, post: string)
    requires ')' !in x
    ensures HasThemeReference(pre + "theme(\"" + x + "\")" + post)
  {
    var s := pre + "theme(\"" + x + "\")" + post;
    var i := |pre|;
    assert s[i..i + 6] == "theme(";
    var rest := s[i + 6..];
    assert rest == "\"" + x + "\")" + post;
    assert rest[|x| + 2] == ')';
    assert ')' !in rest[..|x| + 2] by {
      assert rest[..|x| + 2] == "\"" + x + "\"";
    }
    assert CallAt(s, i, "theme(");
  }

  /** `var(--x)` with a non-empty `x` free of `)` is a theme reference. */
  lemma VarCallIsReference(pre: string, x: string, post: string)
    requires x != [] && ')' !in x
    ensures HasThemeReference(pre + "var(--" + x + ")" + post)
  {
    var s := pre + "var(--" + x + ")" + post;
    var i := |pre|;
    assert s[i..i + 6] == "var(--";
    var rest := s[i + 6..];
    assert rest == x + ")" + post;
    assert rest[|x|] == ')' && rest[..|x|] == x;
    assert CallAt(s, i, "var(--");
  }

  /** The contents of the `theme(...)` matches at or after `i`, scanning left to right without overlap. */
  function ThemeCallContents(s: string, i: nat): (r: seq<string>)
    ensures forall k :: 0 <= k < |r| ==> r[k] != [] && ')' !in r[k]
    decreases |s| - i
  {
    if i >= |s| then []
    else if CallAt(s, i, "theme(") then
      var k := IndexOf(s[i + 6..], ')');
      [s[i + 6..i + 6 + k]] + ThemeCallContents(s, i + 6 + k + 1)
    else ThemeCallContents(s, i + 1)
  }


  /** `content.replaceAll(/^['"]|['"]$/g, '')`: one leading and one trailing quote removed. */
  function StripQuotes(c: string): (r: string)
    ensures |r| <= |c|
    ensures |c| >= 2 && IsQuote(c[0]) && IsQuote(c[|c| - 1]) ==> r == c[1..|c| - 1]
    ensures (|c| == 0 || !IsQuote(c[0])) && (|c| == 0 || !IsQuote(c[|c| - 1])) ==> r == c
  {
    var a := if |c| > 0 && IsQuote(c[0]) then 1 else 0;
    var b := if |c| > a && IsQuote(c[|c| - 1]) then |c| - 1 else |c|;
    c[a..b]
  }

  function Unquote(c: string): string
  {
    Trim(StripQuotes(c))
  }

  function MapUnquote(cs: seq<string>): (r: seq<string>)
    ensures |r| == |cs| && forall k :: 0 <= k < |cs| ==> r[k] == Unquote(cs[k])
  {
    if cs == [] then [] else [Unquote(cs[0])] + MapUnquote(cs[1..])
  }

  /** `extractThemeFunctions`: one unquoted, trimmed argument per `theme(...)` match. */
  function ExtractThemeFunctions(value: string): seq<string>
  {
    MapUnquote(ThemeCallContents(value, 0))
  }

  /** There is a match at or after `i` iff the scan finds one. */
  lemma {:induction false} ContentsIffCall(s: string, i: nat)
    ensures ThemeCallContents(s, i) != [] <==> exists j: nat :: i <= j <= |s| && CallAt(s, j, "theme(")
    decreases |s| - i
  {
    if i < |s| && !CallAt(s, i, "theme(") {
      ContentsIffCall(s, i + 1);
      if exists j: nat :: i <= j <= |s| && CallAt(s, j, "theme(") {
        var j: nat :| i <= j <= |s| && CallAt(s, j, "theme(");
        assert j != i;
      }
    }
    if i < |s| && CallAt(s, i, "theme(") {
      assert i <= i <= |s|;
    }
  }

  /** `extractThemeFunctions` finds something iff the value has a `theme(...)` reference. */
  lemma ExtractIffThemeCall(value: string)
    ensures ExtractThemeFunctions(value) != [] <==> HasCall(value, "theme(")
  {
    ContentsIffCall(value, 0);
  }

  /** The single call `theme("x")` yields `x`, trimmed. */
  lemma ExtractQuotedCall(x: string)
    requires ')' !in x
    ensures ExtractThemeFunctions("theme(\"" + x + "\")") == [Trim(x)]
  {
    var s := "theme(\"" + x + "\")";
    var rest := s[6..];
    assert rest == "\"" + x + "\")";
    assert rest[..|x| + 2] == "\"" + x + "\"";
    assert rest[|x| + 2] == ')';
    assert IndexOf(rest, ')') == |x| + 2;
    assert s[0..6] == "theme(";
    assert CallAt(s, 0, "theme(");
    var c := "\"" + x + "\"";
    assert s[6..6 + |x| + 2] == c;
    assert ThemeCallContents(s, |s|) == [];
    assert ThemeCallContents(s, 0) == [c];
    assert c[1..|c| - 1] == x;
  }

  // ---------------------------------------------------------------------
  // isValidThemePath

  /** The candidate custom-property names for a dotted path. */
  function PathCandidates(path: string): (r: seq<string>)
    ensures |r| == 3
  {
    var segments := Split(path, '.');
    ["--" + Join(segments, "-"), "--" + segments[0] + "-" + Join(segments[1..], "-"), "--" + ReplaceChar(path, '.', "-")]
  }

  /** `isValidThemePath`: some candidate is a key of the map. */
  predicate IsValidThemePath(path: string, themeValues: seq<ThemeValue>)
  {
    exists v :: v in PathCandidates(path) && v in Keys(themeValues)
  }

  lemma DottedCandidates(path: string)
    requires '.' in path
    ensures PathCandidates(path)[1] == PathCandidates(path)[0]
  {
    var segments := Split(path, '.');
    var k := IndexOf(path, '.');
    var head := path[..k];
    var tail := Split(path[k + 1..], '.');
    assert segments == [head] + tail;
    assert segments[0] == head && segments[1..] == tail;
    JoinCons(head, tail, "-");
    var rest := Join(tail, "-");
    calc {
      PathCandidates(path)[0];
      "--" + Join(segments, "-");
      "--" + (head + "-" + rest);
      { assert "--" + (head + "-" + rest) == "--" + head + "-" + rest; }
      "--" + head + "-" + rest;
      PathCandidates(path)[1];
    }
  }

  lemma UndottedCandidates(path: string)
    requires '.' !in path
    ensures PathCandidates(path)[1] == "--" + path + "-"
  {
    assert Split(path, '.') == [path];
    assert Join(Split(path, '.')[1..], "-") == [];
  }

  /** The names tried are `"--"` plus the path with `.` replaced by `-`, and, for a path without dots, the same with a trailing `-`. */
  lemma PathCandidatesFacts(path: string)
    ensures |Split(path, '.')| >= 1
    ensures PathCandidates(path)[0] == PathCandidates(path)[2] == "--" + ReplaceChar(path, '.', "-")
    ensures '.' in path ==> PathCandidates(path)[1] == PathCandidates(path)[0]
    ensures '.' !in path ==> PathCandidates(path)[1] == "--" + path + "-"
  {
    JoinSplitReplace(path, '.', "-");
    if '.' in path {
      DottedCandidates(path);
    } else {
      UndottedCandidates(path);
    }
  }

  /** A path is valid iff `"--"` plus its dashed form is a key, or it has no dot and `"--" + path + "-"` is a key. */
  lemma ValidThemePathIff(path: string, themeValues: seq<ThemeValue>)
    ensures IsValidThemePath(path, themeValues) <==>
      ("--" + ReplaceChar(path, '.', "-") in Keys(themeValues)
       || ('.' !in path && "--" + path + "-" in Keys(themeValues)))
  {
    PathCandidatesFacts(path);
    var c := PathCandidates(path);
    assert forall v :: v in c <==> v == c[0] || v == c[1] || v == c[2];
  }

  // ---------------------------------------------------------------------
  // suggestSimilarTokens and calculateSimilarity

  /** `s.toLowerCase().replaceAll(/[.-]/g, '')`. */
  function Normalize(s: string): (r: string)
    ensures forall i :: 0 <= i < |r| ==> r[i] != '.' && r[i] != '-'
  {
    DropChars(ToLower(s), ".-")
  }

  /**
   * A scored token. Its similarity `1 - distance / maxLength` is kept as the
   * exact fraction `distance / maxLength`, with two empty strings (similarity
   * 1) given the fraction `0 / 1`.
   */
  datatype Suggestion = Suggestion(token: string, distance: nat, maxLength: nat)

  function Num(s: Suggestion): nat { if s.maxLength == 0 then 0 else s.distance }
  function Den(s: Suggestion): (d: nat) ensures d > 0 { if s.maxLength == 0 then 1 else s.maxLength }

  /** The similarity of `a` is at least that of `b`. */
  predicate AtLeast(a: Suggestion, b: Suggestion)
  {
    Num(a) * Den(b) <= Num(b) * Den(a)
  }

  /** `score > 0.5`: `1 - d / L > 1 / 2`, that is `2 d < L`; a score of 1 always passes. */
  predicate AboveHalf(s: Suggestion)
  {
    2 * Num(s) < Den(s)
  }

  /** `calculateSimilarity(normalizedPath, normalizedToken)`, as a fraction. */
  function Score(normalizedPath: string, token: string): (s: Suggestion)
    ensures s.token == token
  {
    var t := Normalize(token);
    Suggestion(token, Distance(normalizedPath, t), if |normalizedPath| < |t| then |t| else |normalizedPath|)
  }

  /** Two empty strings have similarity 1, the highest there is. */
  lemma EmptyScoreIsOne(token: string)
    requires Normalize(token) == []
    ensures Num(Score([], token)) == 0 && AboveHalf(Score([], token))
    ensures forall b :: AtLeast(Score([], token), b)
  {
  }

  lemma MulMonotone(x: nat, y: nat, k: nat)
    requires x <= y
    ensures x * k <= y * k
  {
  }

  lemma MulCancel(x: nat, y: nat, k: nat)
    requires k > 0 && x * k <= y * k
    ensures x <= y
  {
    if x > y {
      MulMonotone(y + 1, x, k);
    }
  }

  lemma FractionTrans(na: nat, da: nat, nb: nat, db: nat, nc: nat, dc: nat)
    requires da > 0 && db > 0 && dc > 0
    requires na * db <= nb * da && nb * dc <= nc * db
    ensures na * dc <= nc * da
  {
    MulMonotone(na * db, nb * da, dc);
    MulMonotone(nb * dc, nc * db, da);
    assert (na * db) * dc == (na * dc) * db;
    assert (nb * da) * dc == (nb * dc) * da;
    assert (nc * db) * da == (nc * da) * db;
    MulCancel(na * dc, nc * da, db);
  }

  lemma AtLeastTrans(a: Suggestion, b: Suggestion, c: Suggestion)
    requires AtLeast(a, b) && AtLeast(b, c)
    ensures AtLeast(a, c)
  {
    FractionTrans(Num(a), Den(a), Num(b), Den(b), Num(c), Den(c));
  }

  lemma AtLeastTotal(a: Suggestion, b: Suggestion)
    ensures AtLeast(a, b) || AtLeast(b, a)
  {
  }

  /** The scored tokens with similarity above one half, in map order. */
  function Scored(normalizedPath: string, tokens: seq<string>): (r: seq<Suggestion>)
  {
    if tokens == [] then []
    else
      var s := Score(normalizedPath, tokens[|tokens| - 1]);
      Scored(normalizedPath, tokens[..|tokens| - 1]) + (if AboveHalf(s) then [s] else [])
  }

  /** The loop step: scoring one more key appends its score when it is above one half. */
  lemma ScoredStep(normalizedPath: string, tokens: seq<string>, i: nat)
    requires i < |tokens|
    ensures Scored(normalizedPath, tokens[..i + 1]) == Scored(normalizedPath, tokens[..i])
      + (if AboveHalf(Score(normalizedPath, tokens[i])) then [Score(normalizedPath, tokens[i])] else [])
  {
    assert tokens[..i + 1][..i] == tokens[..i] && tokens[..i + 1][i] == tokens[i];
  }

  lemma {:induction false} ScoredMembers(normalizedPath: string, tokens: seq<string>)
    ensures forall s :: s in Scored(normalizedPath, tokens) <==> exists t :: t in tokens && s == Score(normalizedPath, t) && AboveHalf(s)
  {
    if tokens != [] {
      var init := tokens[..|tokens| - 1];
      ScoredMembers(normalizedPath, init);
      assert forall t :: t in tokens <==> t in init || t == tokens[|tokens| - 1];
    }
  }

  predicate SortedDesc(xs: seq<Suggestion>)
  {
    forall i, j :: 0 <= i < j < |xs| ==> AtLeast(xs[i], xs[j])
  }

  /** Insert `x` after every element whose similarity is at least its own. */
  function Insert(xs: seq<Suggestion>, x: Suggestion): (r: seq<Suggestion>)
    ensures multiset(r) == multiset(xs) + multiset{x}
  {
    if xs == [] then [x]
    else if !AtLeast(xs[0], x) then [x] + xs
    else
      assert xs == [xs[0]] + xs[1..];
      [xs[0]] + Insert(xs[1..], x)
  }

  /** Inserting into a list sorted by decreasing similarity keeps it sorted. */
  lemma {:induction false} InsertSorted(xs: seq<Suggestion>, x: Suggestion)
    requires SortedDesc(xs)
    ensures SortedDesc(Insert(xs, x))
  {
    if xs == [] {
    } else if !AtLeast(xs[0], x) {
      var r := [x] + xs;
      assert Insert(xs, x) == r;
      forall j | 0 < j < |r| ensures AtLeast(x, r[j]) {
        AtLeastTotal(xs[0], x);
        if j > 1 { AtLeastTrans(x, xs[0], r[j]); }
      }
    } else {
      var rest := Insert(xs[1..], x);
      var r := [xs[0]] + rest;
      assert Insert(xs, x) == r;
      assert SortedDesc(xs[1..]);
      InsertSorted(xs[1..], x);
      forall j | 0 < j < |r| ensures AtLeast(xs[0], r[j]) {
        assert r[j] in multiset(rest);
        assert r[j] == x || r[j] in xs[1..];
      }
    }
  }

  /** `sort((a, b) => b.score - a.score)`: a stable sort by decreasing similarity. */
  function SortDesc(xs: seq<Suggestion>): (r: seq<Suggestion>)
    ensures multiset(r) == multiset(xs)
    ensures SortedDesc(r)
  {
    if xs == [] then []
    else
      assert xs == xs[..|xs| - 1] + [xs[|xs| - 1]];
      var sorted := SortDesc(xs[..|xs| - 1]);
      InsertSorted(sorted, xs[|xs| - 1]);
      Insert(sorted, xs[|xs| - 1])
  }

  /** `a` and `b` have the same similarity. */
  predicate SameScore(a: Suggestion, b: Suggestion)
  {
    AtLeast(a, b) && AtLeast(b, a)
  }

  /** The elements of `xs` with the similarity of `s`, in order. */
  function Tied(xs: seq<Suggestion>, s: Suggestion): seq<Suggestion>
  {
    if xs == [] then [] else (if SameScore(xs[0], s) then [xs[0]] else []) + Tied(xs[1..], s)
  }

  lemma {:induction false} TiedConcat(a: seq<Suggestion>, b: seq<Suggestion>, s: Suggestion)
    ensures Tied(a + b, s) == Tied(a, s) + Tied(b, s)
  {
    if a == [] {
      assert a + b == b;
    } else {
      assert (a + b)[0] == a[0] && (a + b)[1..] == a[1..] + b;
      TiedConcat(a[1..], b, s);
    }
  }

  /** A list with no element of the similarity of `s` has no tied elements. */
  lemma {:induction false} TiedNone(xs: seq<Suggestion>, s: Suggestion)
    requires forall i :: 0 <= i < |xs| ==> !SameScore(xs[i], s)
    ensures Tied(xs, s) == []
  {
    if xs != [] {
      TiedNone(xs[1..], s);
    }
  }

  /** When `x` beats the head of a sorted list, no element of the list has the similarity of `x`. */
  lemma TiedBelow(xs: seq<Suggestion>, x: Suggestion, s: Suggestion)
    requires SortedDesc(xs) && xs != [] && !AtLeast(xs[0], x) && SameScore(x, s)
    ensures Tied(xs, s) == []
  {
    forall i | 0 <= i < |xs| ensures !SameScore(xs[i], s) {
      if SameScore(xs[i], s) {
        AtLeastTrans(xs[i], s, x);
        if i > 0 { AtLeastTrans(xs[0], xs[i], x); }
      }
    }
    TiedNone(xs, s);
  }

  /** Insertion puts `x` after every element of its own similarity, so the ties keep their order and `x` comes last among them. */
  lemma {:induction false} InsertStable(xs: seq<Suggestion>, x: Suggestion, s: Suggestion)
    requires SortedDesc(xs)
    ensures Tied(Insert(xs, x), s) == Tied(xs, s) + Tied([x], s)
  {
    if xs == [] {
    } else if !AtLeast(xs[0], x) {
      InsertAhead(xs, x, s);
    } else {
      assert SortedDesc(xs[1..]);
      InsertStable(xs[1..], x, s);
      assert Insert(xs, x) == [xs[0]] + Insert(xs[1..], x);
      InsertBehind(xs, Insert(xs[1..], x), x, s);
    }
  }

  /** `x` beats the head: it goes first, and no element of the list ties with it. */
  lemma InsertAhead(xs: seq<Suggestion>, x: Suggestion, s: Suggestion)
    requires SortedDesc(xs) && xs != [] && !AtLeast(xs[0], x)
    ensures Tied(Insert(xs, x), s) == Tied(xs, s) + Tied([x], s)
  {
    assert Insert(xs, x) == [x] + xs;
    TiedConcat([x], xs, s);
    if SameScore(x, s) {
      TiedBelow(xs, x, s);
    }
  }

  /** The head stays first, and `x` is inserted into the rest, `rest`. */
  lemma InsertBehind(xs: seq<Suggestion>, rest: seq<Suggestion>, x: Suggestion, s: Suggestion)
    requires xs != []
    requires Tied(rest, s) == Tied(xs[1..], s) + Tied([x], s)
    ensures Tied([xs[0]] + rest, s) == Tied(xs, s) + Tied([x], s)
  {
    var h := if SameScore(xs[0], s) then [xs[0]] else [];
    var a, b := Tied(xs[1..], s), Tied([x], s);
    TiedCons(xs[0], rest, s);
    assert Tied([xs[0]] + rest, s) == h + (a + b);
    assert Tied(xs, s) == h + a;
    assert h + (a + b) == (h + a) + b;
  }

  lemma TiedCons(y: Suggestion, ys: seq<Suggestion>, s: Suggestion)
    ensures Tied([y] + ys, s) == (if SameScore(y, s) then [y] else []) + Tied(ys, s)
  {
    assert ([y] + ys)[0] == y && ([y] + ys)[1..] == ys;
  }

  /**
   * Stability: the elements of any one similarity keep their order, as
   * `Array.prototype.sort` guarantees. With `SortedDesc` and the multiset
   * equality this pins the result down as the stable sort.
   */
  lemma {:induction false} SortStable(xs: seq<Suggestion>, s: Suggestion)
    ensures Tied(SortDesc(xs), s) == Tied(xs, s)
  {
    if xs != [] {
      var init, last := xs[..|xs| - 1], xs[|xs| - 1];
      assert init + [last] == xs;
      SortStable(init, s);
      InsertStable(SortDesc(init), last, s);
      TiedStep(xs, init, last, SortDesc(init), SortDesc(xs), s);
    }
  }

  lemma TiedStep(xs: seq<Suggestion>, init: seq<Suggestion>, last: Suggestion, sorted: seq<Suggestion>, r: seq<Suggestion>, s: Suggestion)
    requires xs == init + [last]
    requires Tied(sorted, s) == Tied(init, s)
    requires Tied(r, s) == Tied(sorted, s) + Tied([last], s)
    ensures Tied(r, s) == Tied(xs, s)
  {
    TiedConcat(init, [last], s);
  }

  function TokensOf(xs: seq<Suggestion>): (r: seq<string>)
    ensures |r| == |xs| && forall i :: 0 <= i < |xs| ==> r[i] == xs[i].token
  {
    if xs == [] then [] else [xs[0].token] + TokensOf(xs[1..])
  }

  /** The scored keys above one half, best first. */
  function Ranked(path: string, themeValues: seq<ThemeValue>): seq<Suggestion>
  {
    SortDesc(Scored(Normalize(path), Keys(themeValues)))
  }

  /** `suggestSimilarTokens(path, themeValues, maxSuggestions)`. */
  function SimilarTokens(path: string, themeValues: seq<ThemeValue>, maxSuggestions: nat): (r: seq<string>)
    ensures |r| <= maxSuggestions && |r| <= |Ranked(path, themeValues)|
    ensures forall i :: 0 <= i < |r| ==> r[i] == Ranked(path, themeValues)[i].token
    ensures |r| < maxSuggestions ==> |r| == |Ranked(path, themeValues)|
  {
    TokensOf(Take(Ranked(path, themeValues), maxSuggestions))
  }

  /** `suggestSimilarTokens`: score each key in map order, keep those above one half, sort, and cut. */
  method SuggestSimilarTokens(path: string, themeValues: seq<ThemeValue>, maxSuggestions: nat) returns (result: seq<string>)
    ensures result == SimilarTokens(path, themeValues, maxSuggestions)
  {
    var normalizedPath := Normalize(path);
    var tokens := Keys(themeValues);
    var suggestions: seq<Suggestion> := [];
    for i := 0 to |tokens|
      invariant suggestions == Scored(normalizedPath, tokens[..i])
    {
      var token := tokens[i];
      var normalizedToken := Normalize(token);
      var maxLength := if |normalizedPath| < |normalizedToken| then |normalizedToken| else |normalizedPath|;
      var distance := LevenshteinDistance(normalizedPath, normalizedToken);
      var scored := Suggestion(token, distance, maxLength);
      assert scored == Score(normalizedPath, token);
      ScoredStep(normalizedPath, tokens, i);
      if AboveHalf(scored) {
        suggestions := suggestions + [scored];
      }
    }
    assert tokens[..|tokens|] == tokens;
    result := TokensOf(Take(SortDesc(suggestions), maxSuggestions));
  }

  /** The ranking holds exactly the scores above one half of the keys, in non-increasing order. */
  lemma RankedFacts(path: string, themeValues: seq<ThemeValue>)
    ensures SortedDesc(Ranked(path, themeValues))
    ensures forall s :: s in Ranked(path, themeValues) <==> exists t :: t in Keys(themeValues) && s == Score(Normalize(path), t) && AboveHalf(s)
  {
    var scored := Scored(Normalize(path), Keys(themeValues));
    var sorted := Ranked(path, themeValues);
    ScoredMembers(Normalize(path), Keys(themeValues));
    forall s ensures s in sorted <==> s in scored {
      assert s in sorted <==> s in multiset(sorted);
      assert s in scored <==> s in multiset(scored);
    }
  }

  /** At most `maxSuggestions` keys of the map, each with similarity above one half. */
  lemma SimilarTokensAreKeys(path: string, themeValues: seq<ThemeValue>, maxSuggestions: nat)
    ensures |SimilarTokens(path, themeValues, maxSuggestions)| <= maxSuggestions
    ensures forall t :: t in SimilarTokens(path, themeValues, maxSuggestions) ==> t in Keys(themeValues) && AboveHalf(Score(Normalize(path), t))
  {
    var r := SimilarTokens(path, themeValues, maxSuggestions);
    var sorted := Ranked(path, themeValues);
    RankedFacts(path, themeValues);
    forall t | t in r ensures t in Keys(themeValues) && AboveHalf(Score(Normalize(path), t)) {
      var i :| 0 <= i < |r| && r[i] == t;
      assert sorted[i] in sorted;
    }
  }

  /** The suggestions come in non-increasing order of similarity. */
  lemma SimilarTokensOrdered(path: string, themeValues: seq<ThemeValue>, maxSuggestions: nat)
    ensures var r := SimilarTokens(path, themeValues, maxSuggestions);
      forall i, j :: 0 <= i < j < |r| ==> AtLeast(Score(Normalize(path), r[i]), Score(Normalize(path), r[j]))
  {
    var r := SimilarTokens(path, themeValues, maxSuggestions);
    var sorted := Ranked(path, themeValues);
    RankedFacts(path, themeValues);
    forall i | 0 <= i < |r| ensures sorted[i] == Score(Normalize(path), r[i]) {
      assert sorted[i] in sorted;
    }
  }

  /**
   * The suggestions are the best: a key above one half that scores strictly
   * higher than a suggestion is suggested too, and with fewer than
   * `maxSuggestions` suggestions every key above one half is there.
   */
  lemma SimilarTokensBest(path: string, themeValues: seq<ThemeValue>, maxSuggestions: nat, t: string)
    requires t in Keys(themeValues) && AboveHalf(Score(Normalize(path), t))
    ensures var r := SimilarTokens(path, themeValues, maxSuggestions);
      && (forall i :: 0 <= i < |r| && !AtLeast(Score(Normalize(path), r[i]), Score(Normalize(path), t)) ==> t in r)
      && (|r| < maxSuggestions ==> t in r)
  {
    var r := SimilarTokens(path, themeValues, maxSuggestions);
    var sorted := Ranked(path, themeValues);
    RankedFacts(path, themeValues);
    var s := Score(Normalize(path), t);
    assert s in sorted;
    var p :| 0 <= p < |sorted| && sorted[p] == s;
    forall i | 0 <= i < |r| ensures sorted[i] == Score(Normalize(path), r[i]) {
      assert sorted[i] in sorted;
    }
    if p < |r| {
      assert r[p] == t;
    }
  }
}
