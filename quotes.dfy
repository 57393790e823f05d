/**
 * The quote records of the store and the pure derivations the page computes
 * from them: input validation, the import filter and merge, the category
 * list, category filtering, the mapping of fetched server posts, the random
 * pick and the position an Array.prototype.splice call removes.
 */
module Quotes {
  import opened Wrappers
  import opened Seqs
  import opened Text

  /** A quote; two quotes are the same quote when text and category are equal. */
  datatype Quote = Quote(text: string, category: string)

  /** The built-in list the page starts with and "reset to default" restores. */
  const DefaultQuotes: seq<Quote> := [
    Quote("The only way to do great work is to love what you do.", "Motivation"),
    Quote("Life is what happens to you while you're busy making other plans.", "Life"),
    Quote("The future belongs to those who believe in the beauty of their dreams.", "Dreams"),
    Quote("It is during our darkest moments that we must focus to see the light.", "Inspiration"),
    Quote("Whoever is happy will make others happy too.", "Happiness"),
    Quote("You must be the change you wish to see in the world.", "Change")
  ]

  /** The value of the category filter that selects every quote. */
  const AllCategories := "all"

  /** Neither field is empty once trimmed. */
  predicate ValidQuote(q: Quote) {
    Trim(q.text) != "" && Trim(q.category) != ""
  }

  // ---------------------------------------------------------------- import

  /**
   * One element of an imported JSON array. A field is `None` when it is
   * missing or not a string; a falsy element (null, false, 0, "") behaves
   * like an object with neither field, so it is `Entry(None, None)`.
   */
  datatype Entry = Entry(text: Option<string>, category: Option<string>)

  /** The parsed import file: unparsable text, a value that is not an array, or an array. */
  datatype Payload = Unparsable | NotArray | Array(entries: seq<Entry>)

  datatype ImportError = ParseError | NotAnArray | NoValidQuotes

  /** String `text` and `category`, both non-empty once trimmed. */
  predicate IsValidEntry(e: Entry) {
    && e.text.Some? && Trim(e.text.value) != ""
    && e.category.Some? && Trim(e.category.value) != ""
  }

  /** The entries of an import that pass validation. */
  function ValidEntries(entries: seq<Entry>): (v: seq<Entry>)
    ensures forall k :: 0 <= k < |v| ==> IsValidEntry(v[k])
    ensures SubseqOf(v, entries)
    ensures forall e :: multiset(v)[e] == if IsValidEntry(e) then multiset(entries)[e] else 0
    ensures v == [] <==> forall k :: 0 <= k < |entries| ==> !IsValidEntry(entries[k])
  {
    FilterSpec(entries, IsValidEntry);
    var v := Filter(entries, IsValidEntry);
    assert v != [] ==> v[0] in multiset(entries);
    assert (exists k :: 0 <= k < |entries| && IsValidEntry(entries[k])) ==> v != [] by {
      forall k | 0 <= k < |entries| && IsValidEntry(entries[k]) ensures v != [] {
        assert entries[k] in multiset(entries);
        assert multiset(v)[entries[k]] > 0;
      }
    }
    v
  }

  /** An entry whose fields are strings, read as a quote (the text is stored untrimmed). */
  function EntryQuote(e: Entry): Quote
    requires e.text.Some? && e.category.Some?
  {
    Quote(e.text.value, e.category.value)
  }

  /** The quotes an import file offers: its valid entries, in file order. */
  function ValidQuotes(entries: seq<Entry>): (qs: seq<Quote>)
    ensures |qs| == |ValidEntries(entries)|
    ensures forall k :: 0 <= k < |qs| ==> ValidQuote(qs[k]) && qs[k] == EntryQuote(ValidEntries(entries)[k])
  {
    var v := ValidEntries(entries);
    seq(|v|, k requires 0 <= k < |v| => EntryQuote(v[k]))
  }

  /**
   * Importing a parsed file into the list `qs`: an error leaves the list as
   * it is; otherwise each valid quote is appended unless an equal quote is
   * already in the (growing) list.
   */
  function Import(qs: seq<Quote>, p: Payload): (r: Result<seq<Quote>, ImportError>)
    ensures r == Err(ParseError) <==> p.Unparsable?
    ensures r == Err(NotAnArray) <==> p.NotArray?
    ensures r == Err(NoValidQuotes) <==>
              p.Array? && forall k :: 0 <= k < |p.entries| ==> !IsValidEntry(p.entries[k])
  {
    match p
    case Unparsable => Err(ParseError)
    case NotArray => Err(NotAnArray)
    case Array(entries) =>
      var valid := ValidQuotes(entries);
      if valid == [] then Err(NoValidQuotes) else Ok(AppendNew(qs, valid))
  }

  /**
   * A successful import keeps the old list as a prefix, keeps the
   * multiplicity of every quote already there, adds each new valid quote of
   * the file exactly once, adds nothing else, and creates no duplicate.
   */
  lemma ImportMerges(qs: seq<Quote>, p: Payload)
    requires Import(qs, p).Ok?
    ensures |qs| <= |Import(qs, p).value| && Import(qs, p).value[..|qs|] == qs
    ensures forall q :: multiset(Import(qs, p).value)[q] ==
              if q in qs then multiset(qs)[q] else if q in ValidQuotes(p.entries) then 1 else 0
    ensures NoDup(qs) ==> NoDup(Import(qs, p).value)
  {
    var valid := ValidQuotes(p.entries);
    AppendNewKeepsPrefix(qs, valid);
    AppendNewCounts(qs, valid);
    if NoDup(qs) {
      AppendNewNoDup(qs, valid);
    }
  }

  /** The entries an export file holds for `qs` (JSON keeps both strings as they are). */
  function Export(qs: seq<Quote>): (es: seq<Entry>)
    ensures |es| == |qs|
    ensures forall k :: 0 <= k < |qs| ==>
              && es[k].text.Some? && es[k].category.Some?
              && EntryQuote(es[k]) == qs[k]
              && (IsValidEntry(es[k]) <==> ValidQuote(qs[k]))
  {
    seq(|qs|, k requires 0 <= k < |qs| => Entry(Some(qs[k].text), Some(qs[k].category)))
  }

  /** Importing a store's own export adds nothing, and fails only when no quote of it is valid. */
  lemma ImportOwnExport(qs: seq<Quote>)
    ensures (exists k :: 0 <= k < |qs| && ValidQuote(qs[k])) ==> Import(qs, Array(Export(qs))) == Ok(qs)
    ensures (forall k :: 0 <= k < |qs| ==> !ValidQuote(qs[k])) ==>
              Import(qs, Array(Export(qs))) == Err(NoValidQuotes)
  {
    var valid := ValidQuotes(Export(qs));
    assert AppendNew(qs, valid) == qs by {
      ExportOffersOwn(qs);
      AppendNewAllPresent(qs, valid);
    }
    if valid != [] {
      ImportOffered(qs, Export(qs));
    }
  }

  /** Every quote the export of `qs` offers for import is already in `qs`. */
  lemma ExportOffersOwn(qs: seq<Quote>)
    ensures forall k :: 0 <= k < |ValidQuotes(Export(qs))| ==> ValidQuotes(Export(qs))[k] in qs
  {
    var es := Export(qs);
    var v := ValidEntries(es);
    var valid := ValidQuotes(es);
    forall k | 0 <= k < |valid| ensures valid[k] in qs {
      assert v[k] in multiset(v);
      assert v[k] in multiset(es);
      var j := IndexOf(es, v[k]);
      assert valid[k] == EntryQuote(es[j]) == qs[j];
    }
  }

  /** The quotes offered by the export of a list of valid quotes are that list. */
  lemma ExportOffersAll(qs: seq<Quote>)
    requires forall k :: 0 <= k < |qs| ==> ValidQuote(qs[k])
    ensures ValidQuotes(Export(qs)) == qs
  {
    var es := Export(qs);
    FilterAll(es, IsValidEntry);
    assert ValidEntries(es) == es;
  }

  /** Exporting a duplicate-free list of valid quotes and importing it into an empty store restores it. */
  lemma ExportImportRoundTrip(qs: seq<Quote>)
    requires qs != [] && NoDup(qs)
    requires forall k :: 0 <= k < |qs| ==> ValidQuote(qs[k])
    ensures Import([], Array(Export(qs))) == Ok(qs)
  {
    assert ValidQuotes(Export(qs)) == qs by { ExportOffersAll(qs); }
    assert AppendNew([], qs) == qs by {
      AppendNewDistinct([], qs);
      assert [] + qs == qs;
    }
    ImportOffered([], Export(qs));
  }

  /** A file offering some valid quote merges exactly those quotes. */
  lemma ImportOffered(qs: seq<Quote>, es: seq<Entry>)
    requires ValidQuotes(es) != []
    ensures Import(qs, Array(es)) == Ok(AppendNew(qs, ValidQuotes(es)))
  {
  }

  /** A file holding one valid quote offers exactly that quote. */
  lemma OneValidEntry(q: Quote)
    requires ValidQuote(q)
    ensures ValidQuotes([Entry(Some(q.text), Some(q.category))]) == [q]
  {
    FilterAll([Entry(Some(q.text), Some(q.category))], IsValidEntry);
  }

  /** Importing a file holding one valid quote that the store lacks appends exactly that quote. */
  lemma ImportOneNew(qs: seq<Quote>, q: Quote)
    requires ValidQuote(q) && q !in qs
    ensures Import(qs, Array([Entry(Some(q.text), Some(q.category))])) == Ok(qs + [q])
  {
    OneValidEntry(q);
    assert AppendNew(qs, [q]) == qs + [q] by { assert [q][..0] == []; }
  }

  // ------------------------------------------------------------- categories

  /** The category of every quote, position by position. */
  function CategoryColumn(qs: seq<Quote>): seq<string>
  {
    seq(|qs|, i requires 0 <= i < |qs| => qs[i].category)
  }

  /**
   * The distinct categories of `qs`, in order of first appearance (what
   * `[...new Set(quotes.map(q => q.category))]` yields).
   */
  function Categories(qs: seq<Quote>): (cats: seq<string>)
    ensures forall c :: c in cats <==> exists i :: 0 <= i < |qs| && qs[i].category == c
    ensures NoDup(cats)
    ensures forall i, j :: 0 <= i < j < |cats| ==>
              IndexOf(CategoryColumn(qs), cats[i]) < IndexOf(CategoryColumn(qs), cats[j])
  {
    var col := CategoryColumn(qs);
    AppendNewMembers([], col);
    AppendNewNoDup([], col);
    AppendNewOrder([], col);
    forall c ensures c in col <==> exists i :: 0 <= i < |qs| && qs[i].category == c {
      if c in col {
        var i := IndexOf(col, c);
        assert qs[i].category == c;
      }
      forall i | 0 <= i < |qs| && qs[i].category == c ensures c in col {
        assert col[i] == c;
      }
    }
    AppendNew([], col)
  }

  /** Concrete case: the categories of [A/X, B/Y] are X then Y. */
  lemma CategoriesScenario()
    ensures Categories([Quote("A", "X"), Quote("B", "Y")]) == ["X", "Y"]
  {
    var col := CategoryColumn([Quote("A", "X"), Quote("B", "Y")]);
    assert col == ["X", "Y"];
    assert col[..1] == ["X"] && ["X"][..0] == [];
  }

  /** The filter value after the category list is rebuilt: the old one if it is still offered, else "all". */
  function RestoreSelection(cats: seq<string>, current: string): (r: string)
    ensures r == current <==> current in cats || current == AllCategories
    ensures r in cats || r == AllCategories
    ensures r != current ==> r == AllCategories
  {
    if current in cats then current else AllCategories
  }

  /** Rebuilding the list keeps the selection exactly when it is "all" or some quote still has that category. */
  lemma SelectionAfterRefresh(qs: seq<Quote>, current: string)
    ensures RestoreSelection(Categories(qs), current) == current <==>
              current == AllCategories || exists i :: 0 <= i < |qs| && qs[i].category == current
    ensures RestoreSelection(Categories(qs), current) == AllCategories
            || RestoreSelection(Categories(qs), current) in Categories(qs)
    ensures RestoreSelection(Categories(qs), current) != current ==>
              RestoreSelection(Categories(qs), current) == AllCategories
  {
  }

  // -------------------------------------------------------------- filtering

  /**
   * The quotes shown for the selected filter value: all of them for "all",
   * otherwise exactly those with that category, in list order.
   */
  function FilterQuotes(qs: seq<Quote>, selected: string): (r: seq<Quote>)
    ensures selected == AllCategories ==> r == qs
    ensures selected != AllCategories ==>
              && (forall k :: 0 <= k < |r| ==> r[k].category == selected)
              && SubseqOf(r, qs)
              && forall q :: multiset(r)[q] == if q.category == selected then multiset(qs)[q] else 0
  {
    if selected == AllCategories then qs
    else
      var inCategory := (q: Quote) => q.category == selected;
      FilterSpec(qs, inCategory);
      Filter(qs, inCategory)
  }

  /**
   * The delete button of a filtered quote is bound to the first index of an
   * equal quote in the whole list; that index is always in bounds and holds
   * the shown quote.
   */
  lemma OriginalIndexValid(qs: seq<Quote>, selected: string)
    ensures forall k :: 0 <= k < |FilterQuotes(qs, selected)| ==>
              && 0 <= IndexOf(qs, FilterQuotes(qs, selected)[k]) < |qs|
              && qs[IndexOf(qs, FilterQuotes(qs, selected)[k])] == FilterQuotes(qs, selected)[k]
  {
    var r := FilterQuotes(qs, selected);
    forall k | 0 <= k < |r| ensures r[k] in qs {
      assert r[k] in multiset(r);
    }
  }

  // ---------------------------------------------------------- server posts

  /** How many fetched posts become quotes. */
  const MaxServerQuotes := 10
  /** Titles longer than this are cut and marked with "...". */
  const TitleLimit := 50
  /** The category given to every quote that comes from the server. */
  const ServerCategory := "Server"

  /** A post title as a quote text: cut to 50 characters and marked with "..." when longer. */
  function ShortTitle(title: string): (t: string)
    ensures |t| <= TitleLimit + 3
    ensures |title| <= TitleLimit ==> t == title
    ensures |title| > TitleLimit ==> title[..TitleLimit] <= t && |t| == TitleLimit + 3
  {
    if |title| > TitleLimit then title[..TitleLimit] + "..." else title
  }

  /**
   * The quotes made from the fetched post titles (`None` when the request or
   * the response failed, which yields no quotes).
   */
  function ServerQuotes(fetched: Option<seq<string>>): (qs: seq<Quote>)
    ensures fetched.None? ==> qs == []
    ensures fetched.Some? ==>
              |qs| == if |fetched.value| < MaxServerQuotes then |fetched.value| else MaxServerQuotes
    ensures forall k :: 0 <= k < |qs| ==>
              && qs[k].category == ServerCategory
              && |qs[k].text| <= TitleLimit + 3
              && (|fetched.value[k]| <= TitleLimit ==> qs[k].text == fetched.value[k])
              && (|fetched.value[k]| > TitleLimit ==> fetched.value[k][..TitleLimit] <= qs[k].text)
  {
    match fetched
    case None => []
    case Some(titles) =>
      var n := if |titles| < MaxServerQuotes then |titles| else MaxServerQuotes;
      seq(n, k requires 0 <= k < n => Quote(ShortTitle(titles[k]), ServerCategory))
  }

  // ------------------------------------------------------ random and splice

  /**
   * The quote shown by the random button: `Math.floor(u * n)` for a draw
   * `u` of Math.random (which lies in [0, 1)), and nothing for an empty list.
   */
  function PickIndex(n: nat, u: real): (r: Option<nat>)
    requires 0.0 <= u < 1.0
    ensures r.None? <==> n == 0
    ensures r.Some? ==> r.value < n
  {
    if n == 0 then None
    else
      var x := u * n as real;
      assert n as real - x == (1.0 - u) * n as real;
      assert 0.0 <= x < n as real;
      Some(x.Floor)
  }

  /**
   * The position `splice(index, 1)` removes from a list of length `n`: a
   * negative index counts from the end (clamped to 0), and an index at or
   * past the end removes nothing.
   */
  function SpliceTarget(n: nat, index: int): (r: Option<nat>)
    ensures r.Some? ==> r.value < n
    ensures r.None? <==> n == 0 || index >= n
    ensures 0 <= index < n ==> r == Some(index)
    ensures index < 0 && n > 0 ==> r == Some(if n + index < 0 then 0 else n + index)
  {
    var start := if index < 0 then (if n + index < 0 then 0 else n + index)
                 else if index < n then index else n;
    if start < n then Some(start) else None
  }
}
