/**
 * The pure parts of the `home` handler of the public routes: rewriting the
 * cover URLs of a series, and building the list of categories that have at
 * least one series. The database queries are inputs: a category list and
 * the series collection in the order the database returns it.
 */
module Home {
  import opened JsString

  /** The origin the stored cover URLs were written with. */
  const LocalOrigin := "http://localhost:2000"

  /** The number of series a category query returns at most (`.limit(10)`). */
  const SeriesLimit := 10

  /** The `cover` field of a series document: an array of URLs, or any other value. */
  datatype Cover = Urls(urls: seq<string>) | NotArray

  /** A series document, with the fields the handler looks at. */
  datatype Series = Series(id: string, category: string, cover: Cover)

  /** A category document that passed review. */
  datatype Category = Category(id: string, name: string)

  /** One element of the reply's `categorys` list. */
  datatype CategoryEntry = CategoryEntry(name: string, series: seq<Series>)

  // ---------------------------------------------------------------- cover URLs

  /** `url.replace('http://localhost:2000', host)` */
  function RewriteUrl(url: string, host: string): string {
    ReplaceFirst(url, LocalOrigin, host)
  }

  /**
   * `replaceUrls`: when `cover` is an array, each URL has its first
   * occurrence of the local origin replaced by the host; the document is
   * otherwise left as it was.
   */
  function ReplaceUrls(data: Series, host: string): (r: Series)
    ensures r.id == data.id && r.category == data.category
    ensures data.cover.NotArray? ==> r == data
    ensures data.cover.Urls? ==> r.cover.Urls? && |r.cover.urls| == |data.cover.urls|
  {
    match data.cover
    case NotArray => data
    case Urls(urls) =>
      data.(cover := Urls(seq(|urls|, i requires 0 <= i < |urls| => RewriteUrl(urls[i], host))))
  }

  /**
   * The rewritten cover, URL by URL: one without the local origin is kept,
   * and in one with it only the first occurrence becomes the host (for a
   * host without `$`, which `replace` would expand).
   */
  lemma ReplaceUrlsEach(data: Series, host: string, i: nat)
    requires data.cover.Urls? && i < |data.cover.urls|
    requires '$' !in host
    ensures var url := data.cover.urls[i];
      var r := ReplaceUrls(data, host).cover.urls[i];
      (!Contains(url, LocalOrigin) ==> r == url) &&
      (forall k: nat :: FirstOccurrence(url, LocalOrigin, k) ==>
        r == url[..k] + host + url[k + |LocalOrigin|..])
  {
    var url := data.cover.urls[i];
    forall k: nat | FirstOccurrence(url, LocalOrigin, k)
      ensures RewriteUrl(url, host) == url[..k] + host + url[k + |LocalOrigin|..]
    {
      ReplaceFirstLiteral(url, LocalOrigin, host, k);
    }
  }

  /** A URL the local origin occurs in twice keeps the second occurrence. */
  lemma OnlyFirstReplaced(url: string, host: string, k: nat, m: nat)
    requires '$' !in host
    requires FirstOccurrence(url, LocalOrigin, k) && k + |LocalOrigin| <= m && OccursAt(url, LocalOrigin, m)
    ensures OccursAt(RewriteUrl(url, host), LocalOrigin, m - |LocalOrigin| + |host|)
  {
    ReplaceFirstLiteral(url, LocalOrigin, host, k);
    LaterOccurrenceShifts(url, LocalOrigin, host, k, m);
  }

  /** Replacing the occurrence at `k` moves a later occurrence at `m` by the change in length. */
  lemma LaterOccurrenceShifts(url: string, p: string, rep: string, k: nat, m: nat)
    requires k + |p| <= m && OccursAt(url, p, m)
    ensures OccursAt(url[..k] + rep + url[k + |p|..], p, m - |p| + |rep|)
  {
    var tail := url[k + |p|..];
    var r := url[..k] + rep + tail;
    var j := m - |p| + |rep|;
    assert r[j..j + |p|] == tail[m - k - |p|..m - k] by {
      assert |url[..k] + rep| == j - (m - k - |p|);
    }
    assert tail[m - k - |p|..m - k] == url[m..m + |p|];
  }

  // ---------------------------------------------------------------- categories

  /** The series of category `id` in collection order: `find({ category: id })`. */
  function InCategory(all: seq<Series>, id: string): (r: seq<Series>)
    ensures |r| <= |all|
    ensures forall s :: s in r ==> s in all && s.category == id
    ensures forall s :: s in all && s.category == id ==> s in r
    ensures |all| == 1 ==> r == if all[0].category == id then all else []
  {
    if |all| == 0 then []
    else
      var rest := InCategory(all[1..], id);
      if all[0].category == id then [all[0]] + rest else rest
  }

  /** Selecting from `a + b` lists the matches in `a`, then those in `b`: collection order is kept. */
  lemma {:induction false} InCategoryAppend(a: seq<Series>, b: seq<Series>, id: string)
    ensures InCategory(a + b, id) == InCategory(a, id) + InCategory(b, id)
  {
    if |a| == 0 {
      assert a + b == b;
    } else {
      assert (a + b)[1..] == a[1..] + b;
      InCategoryAppend(a[1..], b, id);
    }
  }

  /** `find({ category: id }).limit(10)`, then `replaceUrls` on each. */
  function SeriesOf(all: seq<Series>, id: string, host: string): (r: seq<Series>)
    ensures |r| <= SeriesLimit
    ensures forall s :: s in r ==> s.category == id
    ensures r == [] <==> forall s :: s in all ==> s.category != id
    ensures |r| == if |InCategory(all, id)| <= SeriesLimit then |InCategory(all, id)| else SeriesLimit
    ensures forall i :: 0 <= i < |r| ==> r[i] == ReplaceUrls(InCategory(all, id)[i], host)
  {
    var found := InCategory(all, id);
    var limited := if |found| <= SeriesLimit then found else found[..SeriesLimit];
    assert found != [] ==> found[0] in limited;
    var r := seq(|limited|, i requires 0 <= i < |limited| => ReplaceUrls(limited[i], host));
    assert forall i :: 0 <= i < |r| ==> limited[i] in found && r[i].category == limited[i].category;
    r
  }

  /** The entry the loop would push for `c`. */
  function EntryFor(c: Category, all: seq<Series>, host: string): CategoryEntry {
    CategoryEntry(c.name, SeriesOf(all, c.id, host))
  }

  /** The entries the loop has pushed after visiting `cats`. */
  function Kept(cats: seq<Category>, all: seq<Series>, host: string): (r: seq<CategoryEntry>)
    ensures |r| <= |cats|
    ensures forall e :: e in r ==> 0 < |e.series| <= SeriesLimit
  {
    if |cats| == 0 then []
    else
      var c := cats[|cats| - 1];
      var e := EntryFor(c, all, host);
      Kept(cats[..|cats| - 1], all, host) + (if |e.series| > 0 then [e] else [])
  }

  /** Visiting `a` then `b` keeps the entries of `a`, then those of `b`: category order is preserved. */
  lemma {:induction false} KeptAppend(a: seq<Category>, b: seq<Category>, all: seq<Series>, host: string)
    ensures Kept(a + b, all, host) == Kept(a, all, host) + Kept(b, all, host)
    decreases |b|
  {
    if |b| == 0 {
      assert a + b == a;
    } else {
      var b' := b[..|b| - 1];
      assert (a + b)[..|a + b| - 1] == a + b';
      KeptAppend(a, b', all, host);
    }
  }

  /** A category is listed exactly when some series belongs to it. */
  lemma {:induction false} KeptExactly(cats: seq<Category>, all: seq<Series>, host: string, c: Category)
    requires c in cats
    ensures EntryFor(c, all, host) in Kept(cats, all, host) <==> exists s :: s in all && s.category == c.id
    decreases |cats|
  {
    var last := cats[|cats| - 1];
    var front := cats[..|cats| - 1];
    var e := EntryFor(c, all, host);
    if c in front {
      KeptExactly(front, all, host, c);
    } else {
      assert c == last;
    }
    if e in Kept(cats, all, host) {
      assert |e.series| > 0;
    }
  }

  /** Visiting one more category pushes its entry when it has series. */
  lemma KeptStep(cats: seq<Category>, i: nat, all: seq<Series>, host: string)
    requires i < |cats|
    ensures var e := EntryFor(cats[i], all, host);
      Kept(cats[..i + 1], all, host) == Kept(cats[..i], all, host) + (if |e.series| > 0 then [e] else [])
  {
    assert cats[..i + 1][..i] == cats[..i];
  }

  /**
   * The category loop of `home`: for each category, fetch its first ten
   * series, rewrite their covers, and push the category when it has any.
   */
  method CollectCategories(cats: seq<Category>, all: seq<Series>, host: string)
    returns (categorys: seq<CategoryEntry>)
    ensures categorys == Kept(cats, all, host)
  {
    categorys := [];
    for i := 0 to |cats|
      invariant categorys == Kept(cats[..i], all, host)
    {
      var cat := cats[i];
      var processedSeries := SeriesOf(all, cat.id, host);
      if |processedSeries| > 0 {
        categorys := categorys + [CategoryEntry(cat.name, processedSeries)];
      }
      KeptStep(cats, i, all, host);
    }
    assert cats[..|cats|] == cats;
  }
}
