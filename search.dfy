/**
 * The query engine: `handleSearch` (text query, exact-match switch, category
 * filter), the category list offered by the filter drop-down, and the
 * autocomplete suggestions. Fuse.js is not modelled: where the program asks
 * its index, the model takes the index's answer as a parameter (`None` when
 * no index was built) and passes it on unchanged.
 */
module Search {
  import opened Wrappers
  import opened Seqs
  import opened Strings
  import opened Records
  import opened Ordering

  /**
   * `searchTermInput.value.trim().toLowerCase()`: no longer than the input,
   * with no white space at either end and no upper-case ASCII letter.
   */
  function QueryTerm(input: string): (t: string)
    ensures |t| <= |input|
    ensures t == [] || (!IsSpace(t[0]) && !IsSpace(t[|t| - 1]))
    ensures forall i :: 0 <= i < |t| ==> !('A' <= t[i] <= 'Z')
  {
    var s := Trim(input);
    assert s != [] ==> !IsSpace(Lower(s)[0]) && !IsSpace(Lower(s)[|s| - 1]) by {
      if s != [] {
        LowerCharSpace(s[0]);
        LowerCharSpace(s[|s| - 1]);
      }
    }
    Lower(s)
  }

  /** Normalising an already normalised term changes nothing. */
  lemma QueryTermIdempotent(input: string)
    ensures QueryTerm(QueryTerm(input)) == QueryTerm(input)
  {
    var u := Trim(input);
    LowerTrimCommute(u);
    TrimIdempotent(input);
    LowerIdempotent(u);
  }

  /** Exact mode: the lowercased (untrimmed) name equals the term. */
  predicate NameEquals(r: Record, term: string) {
    Lower(OrEmpty(r.name)) == term
  }

  /** Fallback mode: the lowercased name, description or URL contains the term. */
  predicate TextContains(r: Record, term: string) {
    || Contains(Lower(OrEmpty(r.name)), term)
    || Contains(Lower(OrEmpty(r.desc)), term)
    || Contains(Lower(OrEmpty(r.url)), term)
  }

  /** `item.Medientyp === mediatype`, on the raw field. */
  predicate InCategory(r: Record, mediatype: string) {
    r.medientyp == Some(mediatype)
  }

  /**
   * The records the text part of the query selects; the first matching branch
   * wins. Only the index's hits can be anything other than a part of the
   * database in its own order.
   */
  function Candidates(db: seq<Record>, term: string, exact: bool, fuseHits: Option<seq<Record>>): (c: seq<Record>)
    ensures term == "" ==> c == db
    ensures term == "" || exact || fuseHits.None? ==> Subseq(c, db)
    ensures term != "" && exact ==> forall i :: 0 <= i < |c| ==> NameEquals(c[i], term)
    ensures term != "" && !exact && fuseHits.None? ==> forall i :: 0 <= i < |c| ==> TextContains(c[i], term)
  {
    if term == "" then
      SubseqReflexive(db);
      db
    else if exact then
      FilterSubseq(db, r => NameEquals(r, term));
      Filter(db, r => NameEquals(r, term))
    else if fuseHits.Some? then fuseHits.value
    else
      FilterSubseq(db, r => TextContains(r, term));
      Filter(db, r => TextContains(r, term))
  }

  /** The category restriction, applied last and only when switched on with a category chosen. */
  function RestrictCategory(records: seq<Record>, useFilter: bool, mediatype: string): (r: seq<Record>)
    ensures Subseq(r, records)
    ensures useFilter && mediatype != "" ==> forall i :: 0 <= i < |r| ==> InCategory(r[i], mediatype)
  {
    if useFilter && mediatype != "" then
      FilterSubseq(records, r => InCategory(r, mediatype));
      Filter(records, r => InCategory(r, mediatype))
    else
      SubseqReflexive(records);
      records
  }

  /** `handleSearch()`: the list handed to `displayResults`. */
  function HandleSearch(db: seq<Record>, input: string, useFilter: bool, mediatype: string,
                        exact: bool, fuseHits: Option<seq<Record>>): (r: seq<Record>)
    ensures fuseHits.None? || exact || QueryTerm(input) == "" ==> Subseq(r, db)
    ensures useFilter && mediatype != "" ==> forall i :: 0 <= i < |r| ==> InCategory(r[i], mediatype)
  {
    var term := QueryTerm(input);
    var candidates := Candidates(db, term, exact, fuseHits);
    var r := RestrictCategory(candidates, useFilter, mediatype);
    assert fuseHits.None? || exact || term == "" ==> Subseq(r, db) by {
      if fuseHits.None? || exact || term == "" {
        SubseqTrans(r, candidates, db);
      }
    }
    r
  }

  // --- handleSearch, case by case ---

  /** An empty query without a category restriction shows the whole database, in order. */
  lemma EmptyQueryShowsAll(db: seq<Record>, input: string, useFilter: bool, mediatype: string,
                           exact: bool, fuseHits: Option<seq<Record>>)
    requires AllSpace(input)
    requires !useFilter || mediatype == ""
    ensures HandleSearch(db, input, useFilter, mediatype, exact, fuseHits) == db
  {
    assert LeadingSpaces(input) == |input|;
  }

  /** An empty query with a category gives exactly the database's records of that category, in order. */
  lemma EmptyQueryWithCategory(db: seq<Record>, input: string, mediatype: string,
                               exact: bool, fuseHits: Option<seq<Record>>, x: Record)
    requires QueryTerm(input) == "" && mediatype != ""
    ensures var r := HandleSearch(db, input, true, mediatype, exact, fuseHits);
            && Subseq(r, db)
            && (x in r <==> x in db && x.medientyp == Some(mediatype))
            && multiset(r)[x] == if x.medientyp == Some(mediatype) then multiset(db)[x] else 0
  {
    FilterMembers(db, r => InCategory(r, mediatype), x);
    FilterCount(db, r => InCategory(r, mediatype), x);
  }

  /**
   * Exact mode keeps exactly the records whose lowercased name equals the
   * term (a missing name counting as ''), each as often as in the database,
   * in database order.
   */
  lemma ExactMode(db: seq<Record>, input: string, fuseHits: Option<seq<Record>>, x: Record)
    requires QueryTerm(input) != ""
    ensures var r := HandleSearch(db, input, false, "", true, fuseHits);
            && Subseq(r, db)
            && (x in r <==> x in db && Lower(OrEmpty(x.name)) == QueryTerm(input))
            && multiset(r)[x] == if Lower(OrEmpty(x.name)) == QueryTerm(input) then multiset(db)[x] else 0
  {
    var term := QueryTerm(input);
    FilterMembers(db, r => NameEquals(r, term), x);
    FilterCount(db, r => NameEquals(r, term), x);
  }

  /**
   * Without an index, a non-exact query keeps exactly the records whose
   * lowercased name, description or URL contains the term, in database order.
   */
  lemma SubstringMode(db: seq<Record>, input: string, x: Record)
    requires QueryTerm(input) != ""
    ensures var r := HandleSearch(db, input, false, "", false, None);
            && Subseq(r, db)
            && (x in r <==> x in db && TextContains(x, QueryTerm(input)))
            && multiset(r)[x] == if TextContains(x, QueryTerm(input)) then multiset(db)[x] else 0
  {
    var term := QueryTerm(input);
    FilterMembers(db, r => TextContains(r, term), x);
    FilterCount(db, r => TextContains(r, term), x);
  }

  /** With an index, a non-exact query returns the index's hits as they are. */
  lemma FuzzyHitsPassedOn(db: seq<Record>, input: string, hits: seq<Record>)
    requires QueryTerm(input) != ""
    ensures HandleSearch(db, input, false, "", false, Some(hits)) == hits
  {
  }

  /**
   * The category restriction keeps, from whatever the text query selected,
   * exactly the records whose raw `Medientyp` is the chosen category, in order;
   * switched off, or with no category chosen, it changes nothing.
   */
  lemma CategoryRestriction(db: seq<Record>, input: string, useFilter: bool, mediatype: string,
                            exact: bool, fuseHits: Option<seq<Record>>, x: Record)
    ensures var c := Candidates(db, QueryTerm(input), exact, fuseHits);
            var r := HandleSearch(db, input, useFilter, mediatype, exact, fuseHits);
            && (useFilter && mediatype != "" ==>
                  && Subseq(r, c)
                  && (x in r <==> x in c && x.medientyp == Some(mediatype))
                  && multiset(r)[x] == if x.medientyp == Some(mediatype) then multiset(c)[x] else 0)
            && (!useFilter || mediatype == "" ==> r == c)
  {
    var c := Candidates(db, QueryTerm(input), exact, fuseHits);
    FilterSubseq(c, r => InCategory(r, mediatype));
    FilterMembers(c, r => InCategory(r, mediatype), x);
    FilterCount(c, r => InCategory(r, mediatype), x);
  }

  /**
   * The term is trimmed but the names are not: a name that starts or ends
   * with white space never matches in exact mode.
   */
  lemma ExactIgnoresPaddedNames(input: string, name: string)
    requires name != [] && (IsSpace(name[0]) || IsSpace(name[|name| - 1]))
    ensures Lower(name) != QueryTerm(input)
  {
    var l := Lower(name);
    var t := Trim(input);
    var q := Lower(t);
    LowerCharSpace(name[0]);
    LowerCharSpace(name[|name| - 1]);
    assert IsSpace(l[0]) || IsSpace(l[|l| - 1]);
    assert t != [] ==> !IsSpace(q[0]) && !IsSpace(q[|q| - 1]) by {
      if t != [] {
        LowerCharSpace(t[0]);
        LowerCharSpace(t[|t| - 1]);
      }
    }
  }

  // --- The category drop-down ---

  /** `database.map(item => item.Medientyp).filter(Boolean)`. */
  function Categories(db: seq<Record>): (c: seq<string>)
    ensures forall m :: m in c <==> m != "" && exists i :: 0 <= i < |db| && db[i].medientyp == Some(m)
  {
    if db == [] then []
    else
      var rest := Categories(db[1..]);
      assert forall m, i :: 0 <= i < |db| - 1 ==> (db[1..][i].medientyp == Some(m) <==> db[i + 1].medientyp == Some(m));
      (if HasCategory(db[0]) then [db[0].medientyp.value] else []) + rest
  }

  /** `[...new Set(s)]`: the first copy of every element, in order. */
  function Distinct(s: seq<string>): (r: seq<string>)
    ensures NoDup(r)
    ensures forall x :: x in r <==> x in s
  {
    if s == [] then []
    else
      var d := Distinct(s[..|s| - 1]);
      assert s == s[..|s| - 1] + [s[|s| - 1]];
      if s[|s| - 1] in d then d else d + [s[|s| - 1]]
  }

  /**
   * `populateFilterDropdown`: every non-empty category that occurs in the
   * database, once each, in sorted order, and nothing else.
   */
  function CategoryList(db: seq<Record>): (l: seq<string>)
    ensures StrictlySorted(l)
    ensures forall m :: m in l <==> m != "" && exists i :: 0 <= i < |db| && db[i].medientyp == Some(m)
  {
    var d := Distinct(Categories(db));
    SortDistinct(d);
    assert forall m :: m in Sort(d) <==> m in d by {
      forall m
        ensures m in Sort(d) <==> m in d
      {
        assert m in Sort(d) <==> m in multiset(Sort(d));
      }
    }
    Sort(d)
  }

  /**
   * For a real category, the group a record is shown under is the category
   * the filter drop-down selects it by.
   */
  lemma GroupKeyMatchesCategory(r: Record, m: string)
    requires m != "" && m != OTHER_GROUP
    ensures GroupKey(r) == m <==> InCategory(r, m)
  {
  }

  // --- Autocomplete ---

  const MAX_SUGGESTIONS := 8

  /** Fallback suggestions: the name (lowercased) contains the term (lowercased). */
  predicate NameContains(r: Record, term: string) {
    Contains(Lower(OrEmpty(r.name)), Lower(term))
  }

  /** `showAutocomplete(term)`: the suggestions shown; empty means the drop-down is hidden. */
  function Autocomplete(db: seq<Record>, term: string, fuseHits: Option<seq<Record>>): (r: seq<Record>)
    ensures |term| < 2 || db == [] ==> r == []
  {
    if |term| < 2 || db == [] then []
    else if fuseHits.Some? then fuseHits.value
    else
      var matches := Filter(db, x => NameContains(x, term));
      matches[..if |matches| < MAX_SUGGESTIONS then |matches| else MAX_SUGGESTIONS]
  }

  /**
   * Without an index, the suggestions are the first (at most eight) records
   * of the database whose name contains the term, in database order.
   */
  lemma AutocompleteFallback(db: seq<Record>, term: string)
    requires |term| >= 2 && db != []
    ensures var r := Autocomplete(db, term, None);
            var matches := Filter(db, x => NameContains(x, term));
            && |r| <= MAX_SUGGESTIONS
            && |r| == (if |matches| < MAX_SUGGESTIONS then |matches| else MAX_SUGGESTIONS)
            && r <= matches
            && Subseq(r, db)
            && forall i :: 0 <= i < |r| ==> r[i] in db && NameContains(r[i], term)
  {
    var matches := Filter(db, x => NameContains(x, term));
    var r := Autocomplete(db, term, None);
    FilterSubseq(db, x => NameContains(x, term));
    PrefixSubseq(r, matches);
    SubseqTrans(r, matches, db);
    forall i | 0 <= i < |r|
      ensures r[i] in db
    {
      SubseqMembers(r, db, r[i]);
    }
  }
}
