/**
 * The project gallery: the sort by `order ?? 999`, the category, language and
 * text filters, the lists of available categories and languages, and the
 * clear-all handler.
 */
module Projects {
  import Strings
  import Wrappers

  /** The fields of `Project` that the gallery and the sitemap read. */
  datatype Project = Project(
    id: string,
    title: string,
    summary: string,
    category: string,
    primaryLanguage: string,
    techStack: seq<string>,
    tags: seq<string>,
    createdAt: Wrappers.Option<string>,
    updatedAt: Wrappers.Option<string>,
    order: Wrappers.Option<int>)

  /** A filter choice: `'all'` or one value. */
  datatype Selection = All | Only(value: string)

  const DefaultOrder: int := 999

  function Key(p: Project): int { p.order.GetOr(DefaultOrder) }

  // ---------------------------------------------------------------------------
  // Sorting by order

  predicate SortedByKey(s: seq<Project>) {
    forall i, j :: 0 <= i < j < |s| ==> Key(s[i]) <= Key(s[j])
  }

  /** Insert `p` before the first element whose key is not smaller, so that
      elements of equal key keep their relative order. */
  function InsertByKey(p: Project, s: seq<Project>): (r: seq<Project>)
    ensures multiset(r) == multiset(s) + multiset{p}
    ensures |r| == |s| + 1
  {
    if s == [] || Key(p) <= Key(s[0]) then [p] + s
    else
      assert s == [s[0]] + s[1..];
      [s[0]] + InsertByKey(p, s[1..])
  }

  predicate AllAtLeast(s: seq<Project>, b: int) {
    forall i :: 0 <= i < |s| ==> b <= Key(s[i])
  }

  lemma {:induction false} InsertByKeyAtLeast(p: Project, s: seq<Project>, b: int)
    requires b <= Key(p) && AllAtLeast(s, b)
    ensures AllAtLeast(InsertByKey(p, s), b)
    decreases |s|
  {
    if s != [] && Key(p) > Key(s[0]) {
      InsertByKeyAtLeast(p, s[1..], b);
    }
  }

  lemma {:induction false} InsertByKeySorted(p: Project, s: seq<Project>)
    requires SortedByKey(s)
    ensures SortedByKey(InsertByKey(p, s))
    decreases |s|
  {
    if s == [] || Key(p) <= Key(s[0]) {
      var r := [p] + s;
      forall i, j | 0 <= i < j < |r| ensures Key(r[i]) <= Key(r[j]) {
        if i == 0 {
          assert Key(s[0]) <= Key(s[j - 1]);
        }
      }
    } else {
      var t := s[1..];
      InsertByKeySorted(p, t);
      InsertByKeyAtLeast(p, t, Key(s[0]));
      var tail := InsertByKey(p, t);
      var r := [s[0]] + tail;
      forall i, j | 0 <= i < j < |r| ensures Key(r[i]) <= Key(r[j]) {
        if i == 0 {
          assert r[j] == tail[j - 1];
        } else {
          assert r[i] == tail[i - 1] && r[j] == tail[j - 1];
        }
      }
    }
  }

  /** `projects.slice().sort((a, b) => (a.order ?? 999) - (b.order ?? 999))`. */
  function SortByOrder(s: seq<Project>): (r: seq<Project>)
    ensures multiset(r) == multiset(s)
    ensures |r| == |s|
  {
    if s == [] then []
    else
      assert s == [s[0]] + s[1..];
      InsertByKey(s[0], SortByOrder(s[1..]))
  }

  /** The sorted copy is in non-decreasing order of `order ?? 999`. */
  lemma {:induction false} SortByOrderSorted(s: seq<Project>)
    ensures SortedByKey(SortByOrder(s))
    decreases |s|
  {
    if s != [] {
      SortByOrderSorted(s[1..]);
      InsertByKeySorted(s[0], SortByOrder(s[1..]));
    }
  }

  /** The elements whose key is `k`, in their order. */
  function WithKey(s: seq<Project>, k: int): (r: seq<Project>)
    ensures forall i :: 0 <= i < |r| ==> Key(r[i]) == k
    decreases |s|
  {
    if s == [] then []
    else (if Key(s[0]) == k then [s[0]] else []) + WithKey(s[1..], k)
  }

  lemma {:induction false} InsertByKeyWithKey(p: Project, s: seq<Project>, k: int)
    ensures WithKey(InsertByKey(p, s), k) == (if Key(p) == k then [p] else []) + WithKey(s, k)
    decreases |s|
  {
    if s != [] && Key(p) > Key(s[0]) {
      var t := s[1..];
      InsertByKeyWithKey(p, t, k);
      assert InsertByKey(p, s) == [s[0]] + InsertByKey(p, t);
      WithKeyCons(s[0], InsertByKey(p, t), k);
      assert s == [s[0]] + t;
      WithKeyCons(s[0], t, k);
      if Key(p) == k {
        assert Key(s[0]) != k;
      } else {
        assert WithKey(InsertByKey(p, t), k) == WithKey(t, k);
      }
    } else {
      WithKeyCons(p, s, k);
    }
  }

  lemma WithKeyCons(x: Project, t: seq<Project>, k: int)
    ensures WithKey([x] + t, k) == (if Key(x) == k then [x] else []) + WithKey(t, k)
  {
    assert ([x] + t)[0] == x && ([x] + t)[1..] == t;
  }

  /** The sort is stable: projects with the same `order ?? 999` keep their
      relative order. */
  lemma {:induction false} SortByOrderStable(s: seq<Project>, k: int)
    ensures WithKey(SortByOrder(s), k) == WithKey(s, k)
    decreases |s|
  {
    if s != [] {
      SortByOrderStable(s[1..], k);
      InsertByKeyWithKey(s[0], SortByOrder(s[1..]), k);
    }
  }

  // ---------------------------------------------------------------------------
  // Filtering

  /** One of the three tests `filtered` applies, one `.filter` call each. */
  datatype Test = CategoryIs(category: Selection) | LanguageIs(language: Selection) | QueryIn(query: string)

  predicate SomeIncludes(values: seq<string>, query: string) {
    exists i :: 0 <= i < |values| && Strings.Includes(Strings.ToLower(values[i]), query)
  }

  /** The text test for the normalised query: an empty query keeps everything. */
  predicate MatchesQuery(p: Project, query: string) {
    query == [] ||
    Strings.Includes(Strings.ToLower(p.title), query) ||
    Strings.Includes(Strings.ToLower(p.summary), query) ||
    SomeIncludes(p.techStack, query) ||
    SomeIncludes(p.tags, query)
  }

  predicate Holds(p: Project, t: Test) {
    match t
    case CategoryIs(c) => c.All? || p.category == c.value
    case LanguageIs(l) => l.All? || p.primaryLanguage == l.value
    case QueryIn(q) => MatchesQuery(p, q)
  }

  /** `Array.prototype.filter` with one of the tests. */
  function Filter(s: seq<Project>, t: Test): (r: seq<Project>)
    ensures |r| <= |s|
    decreases |s|
  {
    if s == [] then []
    else (if Holds(s[0], t) then [s[0]] else []) + Filter(s[1..], t)
  }

  /** A filter keeps every copy of a passing element and no other element. */
  lemma {:induction false} FilterCount(s: seq<Project>, t: Test)
    ensures forall x :: multiset(Filter(s, t))[x] == if Holds(x, t) then multiset(s)[x] else 0
    decreases |s|
  {
    if s != [] {
      FilterCount(s[1..], t);
      assert s == [s[0]] + s[1..];
    }
  }

  lemma {:induction false} FilterAtLeast(s: seq<Project>, t: Test, b: int)
    requires AllAtLeast(s, b)
    ensures AllAtLeast(Filter(s, t), b)
    decreases |s|
  {
    if s != [] {
      FilterAtLeast(s[1..], t, b);
    }
  }

  /** Filtering keeps the relative order, so a non-decreasing list stays so. */
  lemma {:induction false} FilterSorted(s: seq<Project>, t: Test)
    requires SortedByKey(s)
    ensures SortedByKey(Filter(s, t))
    decreases |s|
  {
    if s != [] {
      var rest := s[1..];
      FilterSorted(rest, t);
      var tail := Filter(rest, t);
      if Holds(s[0], t) {
        FilterAtLeast(rest, t, Key(s[0]));
        var r := [s[0]] + tail;
        forall i, j | 0 <= i < j < |r| ensures Key(r[i]) <= Key(r[j]) {
          if i == 0 {
            assert r[j] == tail[j - 1];
          } else {
            assert r[i] == tail[i - 1] && r[j] == tail[j - 1];
          }
        }
      }
    }
  }

  /** A filter whose test every element passes changes nothing. */
  lemma {:induction false} FilterAllPass(s: seq<Project>, t: Test)
    requires forall i :: 0 <= i < |s| ==> Holds(s[i], t)
    ensures Filter(s, t) == s
    decreases |s|
  {
    if s != [] {
      FilterAllPass(s[1..], t);
      assert s == [s[0]] + s[1..];
    }
  }

  /** `searchQuery.toLowerCase().trim()`. */
  function NormalizeQuery(searchQuery: string): (q: string)
    ensures |q| <= |searchQuery|
  {
    Strings.Trim(Strings.ToLower(searchQuery))
  }

  /** A project is shown when it passes all three tests. */
  predicate Passes(p: Project, category: Selection, language: Selection, searchQuery: string) {
    Holds(p, CategoryIs(category)) && Holds(p, LanguageIs(language)) &&
    Holds(p, QueryIn(NormalizeQuery(searchQuery)))
  }

  /** `filtered`: sort, then the category, language and text filters. */
  function Filtered(projects: seq<Project>, category: Selection, language: Selection, searchQuery: string): (r: seq<Project>)
    ensures |r| <= |projects|
  {
    var byCategory := Filter(SortByOrder(projects), CategoryIs(category));
    var byLanguage := Filter(byCategory, LanguageIs(language));
    Filter(byLanguage, QueryIn(NormalizeQuery(searchQuery)))
  }

  /** Each project passing all three tests is shown as often as it occurs in
      `projects`, every other project not at all. */
  lemma FilteredCount(projects: seq<Project>, category: Selection, language: Selection, searchQuery: string)
    ensures forall x :: multiset(Filtered(projects, category, language, searchQuery))[x] ==
              if Passes(x, category, language, searchQuery) then multiset(projects)[x] else 0
  {
    var s := SortByOrder(projects);
    var byCategory := Filter(s, CategoryIs(category));
    var byLanguage := Filter(byCategory, LanguageIs(language));
    FilterCount(s, CategoryIs(category));
    FilterCount(byCategory, LanguageIs(language));
    FilterCount(byLanguage, QueryIn(NormalizeQuery(searchQuery)));
  }

  /** The shown list is in order of `order ?? 999`, and a project is shown
      exactly when it is one of the projects and passes all three tests. */
  lemma FilteredSpec(projects: seq<Project>, category: Selection, language: Selection, searchQuery: string)
    ensures SortedByKey(Filtered(projects, category, language, searchQuery))
    ensures forall p :: p in Filtered(projects, category, language, searchQuery) <==>
              p in projects && Passes(p, category, language, searchQuery)
  {
    var s := SortByOrder(projects);
    var byCategory := Filter(s, CategoryIs(category));
    var byLanguage := Filter(byCategory, LanguageIs(language));
    SortByOrderSorted(projects);
    FilterSorted(s, CategoryIs(category));
    FilterSorted(byCategory, LanguageIs(language));
    FilterSorted(byLanguage, QueryIn(NormalizeQuery(searchQuery)));
    FilteredCount(projects, category, language, searchQuery);
    var r := Filtered(projects, category, language, searchQuery);
    forall p ensures p in r <==> p in projects && Passes(p, category, language, searchQuery) {
      assert p in r <==> multiset(r)[p] > 0;
      assert p in projects <==> multiset(projects)[p] > 0;
    }
  }

  /** Choosing one category or one language instead of `'all'` never shows a
      project that was not shown before. */
  lemma NarrowingShrinks(projects: seq<Project>, category: Selection, language: Selection,
                         category': Selection, language': Selection, searchQuery: string)
    requires category.All? || category' == category
    requires language.All? || language' == language
    ensures multiset(Filtered(projects, category', language', searchQuery)) <=
            multiset(Filtered(projects, category, language, searchQuery))
    ensures |Filtered(projects, category', language', searchQuery)| <= |Filtered(projects, category, language, searchQuery)|
  {
    var narrow := Filtered(projects, category', language', searchQuery);
    var wide := Filtered(projects, category, language, searchQuery);
    FilteredCount(projects, category, language, searchQuery);
    FilteredCount(projects, category', language', searchQuery);
    assert multiset(narrow) <= multiset(wide);
    assert multiset(wide) == multiset(narrow) + (multiset(wide) - multiset(narrow));
  }

  /** A project matching a query matches every part of it. */
  lemma MatchesSubquery(p: Project, query: string, query': string)
    requires query == [] || Strings.Includes(query', query)
    requires MatchesQuery(p, query')
    ensures MatchesQuery(p, query)
  {
    if query != [] {
      if Strings.Includes(Strings.ToLower(p.title), query') {
        Strings.IncludesTransitive(Strings.ToLower(p.title), query', query);
      } else if Strings.Includes(Strings.ToLower(p.summary), query') {
        Strings.IncludesTransitive(Strings.ToLower(p.summary), query', query);
      } else if SomeIncludes(p.techStack, query') {
        var i :| 0 <= i < |p.techStack| && Strings.Includes(Strings.ToLower(p.techStack[i]), query');
        Strings.IncludesTransitive(Strings.ToLower(p.techStack[i]), query', query);
      } else {
        var i :| 0 <= i < |p.tags| && Strings.Includes(Strings.ToLower(p.tags[i]), query');
        Strings.IncludesTransitive(Strings.ToLower(p.tags[i]), query', query);
      }
    }
  }

  /** Typing more of the query (a normalised query containing the old one)
      never shows a project that was not shown before. */
  lemma NarrowingQueryShrinks(projects: seq<Project>, category: Selection, language: Selection,
                              searchQuery: string, searchQuery': string)
    requires NormalizeQuery(searchQuery) == [] ||
             Strings.Includes(NormalizeQuery(searchQuery'), NormalizeQuery(searchQuery))
    ensures multiset(Filtered(projects, category, language, searchQuery')) <=
            multiset(Filtered(projects, category, language, searchQuery))
  {
    FilteredCount(projects, category, language, searchQuery);
    FilteredCount(projects, category, language, searchQuery');
    forall x | Passes(x, category, language, searchQuery')
      ensures Passes(x, category, language, searchQuery)
    {
      MatchesSubquery(x, NormalizeQuery(searchQuery), NormalizeQuery(searchQuery'));
    }
  }

  /** `ToLower` keeps whitespace, so a blank query is empty once normalised. */
  lemma BlankQueryIsEmpty(searchQuery: string)
    requires Strings.AllWhitespace(searchQuery)
    ensures NormalizeQuery(searchQuery) == []
  {
    var lower := Strings.ToLower(searchQuery);
    forall i | 0 <= i < |lower| ensures Strings.IsJsWhitespace(lower[i]) {
      assert Strings.IsJsWhitespace(searchQuery[i]);
    }
  }

  /** A blank query applies no text filter. */
  lemma BlankQueryNoTextFilter(projects: seq<Project>, category: Selection, language: Selection, searchQuery: string)
    requires Strings.AllWhitespace(searchQuery)
    ensures Filtered(projects, category, language, searchQuery) ==
            Filter(Filter(SortByOrder(projects), CategoryIs(category)), LanguageIs(language))
  {
    BlankQueryIsEmpty(searchQuery);
    var byLanguage := Filter(Filter(SortByOrder(projects), CategoryIs(category)), LanguageIs(language));
    FilterAllPass(byLanguage, QueryIn([]));
  }

  /** `handleClearAll`: both selections back to `'all'` and the query emptied. */
  datatype FilterState = FilterState(category: Selection, language: Selection, searchQuery: string)

  function ClearAll(): (r: FilterState)
    ensures r.category.All? && r.language.All? && r.searchQuery == []
  {
    FilterState(All, All, "")
  }

  /** After `handleClearAll` every project is shown, in sorted order. */
  lemma ClearAllShowsAll(projects: seq<Project>)
    ensures Filtered(projects, ClearAll().category, ClearAll().language, ClearAll().searchQuery) == SortByOrder(projects)
  {
    var s := SortByOrder(projects);
    assert NormalizeQuery("") == [];
    FilterAllPass(s, CategoryIs(All));
    FilterAllPass(s, LanguageIs(All));
    FilterAllPass(s, QueryIn([]));
  }

  // ---------------------------------------------------------------------------
  // Available categories and languages

  /** `Array.from(new Set(values))`: first occurrences in order. */
  function Dedupe(values: seq<string>): (r: seq<string>)
    ensures forall x :: x in r <==> x in values
    ensures NoDuplicates(r)
    decreases |values|
  {
    if values == [] then []
    else
      var init := Dedupe(values[..|values| - 1]);
      var last := values[|values| - 1];
      assert values == values[..|values| - 1] + [last];
      if last in init then init else init + [last]
  }

  predicate NoDuplicates(s: seq<string>) {
    forall i, j :: 0 <= i < j < |s| ==> s[i] != s[j]
  }

  predicate StrictlySorted(s: seq<string>) {
    forall i, j :: 0 <= i < j < |s| ==> Strings.LexLess(s[i], s[j])
  }

  /** Insert `x` into an ascending list of distinct strings. */
  function InsertString(x: string, s: seq<string>): (r: seq<string>)
    ensures multiset(r) == multiset(s) + multiset{x}
  {
    if s == [] || Strings.LexLe(x, s[0]) then [x] + s
    else
      assert s == [s[0]] + s[1..];
      [s[0]] + InsertString(x, s[1..])
  }

  lemma {:induction false} InsertStringSorted(x: string, s: seq<string>)
    requires StrictlySorted(s) && x !in s
    ensures StrictlySorted(InsertString(x, s))
    decreases |s|
  {
    if s != [] {
      if Strings.LexLe(x, s[0]) {
        assert x != s[0];
        var r := [x] + s;
        forall i, j | 0 <= i < j < |r| ensures Strings.LexLess(r[i], r[j]) {
          if i == 0 && j > 1 {
            Strings.LexLessTransitive(x, s[0], s[j - 1]);
          }
        }
      } else {
        var t := s[1..];
        assert StrictlySorted(t);
        InsertStringSorted(x, t);
        Strings.LexNotLess(x, s[0]);
        assert Strings.LexLess(s[0], x);
        var tail := InsertString(x, t);
        var r := [s[0]] + tail;
        forall y | y in multiset(tail) ensures Strings.LexLess(s[0], y) {
          if y != x {
            assert y in multiset(t);
            var k :| 0 <= k < |t| && t[k] == y;
            assert s[k + 1] == y;
          }
        }
        forall i, j | 0 <= i < j < |r| ensures Strings.LexLess(r[i], r[j]) {
          if i == 0 {
            assert r[j] == tail[j - 1];
            assert r[j] in multiset(tail);
          } else {
            assert r[i] == tail[i - 1] && r[j] == tail[j - 1];
          }
        }
      }
    }
  }

  /** `.sort()` on values that are distinct. */
  function SortStrings(s: seq<string>): (r: seq<string>)
    ensures multiset(r) == multiset(s)
  {
    if s == [] then []
    else
      assert s == [s[0]] + s[1..];
      InsertString(s[0], SortStrings(s[1..]))
  }

  lemma {:induction false} SortStringsSorted(s: seq<string>)
    requires NoDuplicates(s)
    ensures StrictlySorted(SortStrings(s))
    decreases |s|
  {
    if s != [] {
      var t := s[1..];
      assert NoDuplicates(t);
      SortStringsSorted(t);
      var st := SortStrings(t);
      assert s[0] !in t;
      assert s[0] !in multiset(st);
      InsertStringSorted(s[0], st);
    }
  }

  /** `availableCategories` / `availableLanguages` for the given values: the
      list holds exactly the values present, without repeats, ascending. */
  function AvailableValues(values: seq<string>): (r: seq<string>)
    ensures forall x :: x in r <==> x in values
    ensures StrictlySorted(r)
    ensures NoDuplicates(r)
  {
    SortDedupeSpec(values);
    SortStrings(Dedupe(values))
  }

  lemma SortDedupeSpec(values: seq<string>)
    ensures forall x :: x in SortStrings(Dedupe(values)) <==> x in values
    ensures StrictlySorted(SortStrings(Dedupe(values)))
    ensures NoDuplicates(SortStrings(Dedupe(values)))
  {
    var d := Dedupe(values);
    var r := SortStrings(d);
    SortStringsSorted(d);
    forall x ensures x in r <==> x in values {
      assert x in r <==> x in multiset(r);
      assert x in d <==> x in multiset(d);
    }
    forall i, j | 0 <= i < j < |r| ensures r[i] != r[j] {
      Strings.LexLessIrreflexive(r[i]);
    }
  }

  /** `projects.map((p) => p.category)`. */
  function Categories(projects: seq<Project>): (r: seq<string>)
    ensures |r| == |projects|
    ensures forall i :: 0 <= i < |projects| ==> r[i] == projects[i].category
  {
    seq(|projects|, i requires 0 <= i < |projects| => projects[i].category)
  }

  /** `projects.map((p) => p.primaryLanguage)`. */
  function Languages(projects: seq<Project>): (r: seq<string>)
    ensures |r| == |projects|
    ensures forall i :: 0 <= i < |projects| ==> r[i] == projects[i].primaryLanguage
  {
    seq(|projects|, i requires 0 <= i < |projects| => projects[i].primaryLanguage)
  }

  /** `availableCategories`: each category of some project, once, ascending. */
  lemma AvailableCategoriesSpec(projects: seq<Project>)
    ensures forall c :: c in AvailableValues(Categories(projects)) <==>
              exists i :: 0 <= i < |projects| && projects[i].category == c
    ensures StrictlySorted(AvailableValues(Categories(projects)))
  {
    var cs := Categories(projects);
    forall c ensures c in cs <==> exists i :: 0 <= i < |projects| && projects[i].category == c {
      if c in cs {
        var i :| 0 <= i < |cs| && cs[i] == c;
        assert projects[i].category == c;
      }
      forall i | 0 <= i < |projects| && projects[i].category == c ensures c in cs {
        assert cs[i] == c;
      }
    }
  }

  /** `availableLanguages`: each primary language of some project, once, ascending. */
  lemma AvailableLanguagesSpec(projects: seq<Project>)
    ensures forall l :: l in AvailableValues(Languages(projects)) <==>
              exists i :: 0 <= i < |projects| && projects[i].primaryLanguage == l
    ensures StrictlySorted(AvailableValues(Languages(projects)))
  {
    var ls := Languages(projects);
    forall l ensures l in ls <==> exists i :: 0 <= i < |projects| && projects[i].primaryLanguage == l {
      if l in ls {
        var i :| 0 <= i < |ls| && ls[i] == l;
        assert projects[i].primaryLanguage == l;
      }
      forall i | 0 <= i < |projects| && projects[i].primaryLanguage == l ensures l in ls {
        assert ls[i] == l;
      }
    }
  }
}
