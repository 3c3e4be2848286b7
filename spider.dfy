/**
 * The page handlers of the textiles spider. `parse` turns a listing page
 * into crawl requests: one detail request per product card whose link is
 * present and non-empty, in page order, then at most one request for the
 * next listing page. `parse_product_detail` turns a detail page into a
 * product record: text nodes joined and stripped, the specification table
 * read into a dictionary, and five record fields filled from that
 * dictionary by substring match on its keys.
 *
 * The page's selector results are inputs: `.get()` is an optional string,
 * `.getall()` a sequence of strings. Resolving a link against the page url
 * (`response.follow`) is kept as the pair of the two.
 */
module TextileSpider {
  import opened Wrappers
  import opened Text
  import opened Sequences

  // ---------------------------------------------------------------------
  // Listing pages
  // ---------------------------------------------------------------------

  /** A link followed from page `base`; the joined url is not computed. */
  datatype Link = Follow(base: string, href: string)

  /** The handler a request is sent to. */
  datatype Callback = ListingHandler | DetailHandler

  datatype Request = Request(link: Link, callback: Callback)

  /** A listing page: its url, each card's link (if any) in page order, and the "Next" link. */
  datatype ListingPage = ListingPage(url: string, cardHrefs: seq<Option<string>>, nextHref: Option<string>)

  /** Python truthiness of an optional string: present and non-empty. */
  predicate Truthy(h: Option<string>)
  {
    h.Some? && h.value != ""
  }

  /** The detail request card link `h` of the page at `url` gives, if it is truthy. */
  function DetailRequestOf(url: string): Option<string> -> Option<Request>
  {
    h => if Truthy(h) then Some(Request(Follow(url, h.value), DetailHandler)) else None
  }

  /** The detail requests for the cards `hrefs` of the page at `url`, in page order. */
  function DetailRequests(url: string, hrefs: seq<Option<string>>): seq<Request>
  {
    Collect(hrefs, DetailRequestOf(url))
  }

  /** The next-page request, if the "Next" link is truthy. */
  function NextRequest(url: string, next: Option<string>): seq<Request>
  {
    if Truthy(next) then [Request(Follow(url, next.value), ListingHandler)] else []
  }

  /** The number of cards among `hrefs` with a truthy link. */
  function CountLinked(url: string, hrefs: seq<Option<string>>): nat
  {
    CountSome(hrefs, DetailRequestOf(url))
  }

  /**
   * Card `i` with a truthy link has its detail request at position
   * `CountLinked(url, hrefs[..i])`, the number of linked cards before it.
   * Those positions grow strictly in page order and there are as many
   * detail requests as linked cards, so each linked card gives exactly one.
   */
  lemma DetailRequestsPerCard(url: string, hrefs: seq<Option<string>>)
    ensures |DetailRequests(url, hrefs)| == CountLinked(url, hrefs)
    ensures forall i :: 0 <= i < |hrefs| && Truthy(hrefs[i]) ==>
      CountLinked(url, hrefs[..i]) < |DetailRequests(url, hrefs)| &&
      DetailRequests(url, hrefs)[CountLinked(url, hrefs[..i])] == Request(Follow(url, hrefs[i].value), DetailHandler)
    ensures forall i, k :: 0 <= i < k <= |hrefs| && Truthy(hrefs[i]) ==>
      CountLinked(url, hrefs[..i]) < CountLinked(url, hrefs[..k])
  {
    CollectPositions(hrefs, DetailRequestOf(url));
  }

  /** Every detail request goes to the detail handler, following a link from the listing page. */
  lemma {:induction false} DetailRequestsShape(url: string, hrefs: seq<Option<string>>)
    ensures forall j :: 0 <= j < |DetailRequests(url, hrefs)| ==>
      DetailRequests(url, hrefs)[j].callback == DetailHandler && DetailRequests(url, hrefs)[j].link.base == url
  {
    if hrefs != [] {
      var init := hrefs[..|hrefs| - 1];
      DetailRequestsShape(url, init);
      var y := DetailRequestOf(url)(hrefs[|hrefs| - 1]);
      assert DetailRequests(url, hrefs) == DetailRequests(url, init) + (if y.Some? then [y.value] else []);
    }
  }

  /**
   * `parse`: the detail requests of the cards with a truthy link, in page
   * order, then the next-page request when the "Next" link is truthy.
   */
  method Parse(page: ListingPage) returns (requests: seq<Request>)
    ensures requests == DetailRequests(page.url, page.cardHrefs) + NextRequest(page.url, page.nextHref)
  {
    requests := [];
    var i := 0;
    while i < |page.cardHrefs|
      invariant 0 <= i <= |page.cardHrefs|
      invariant requests == DetailRequests(page.url, page.cardHrefs[..i])
    {
      var href := page.cardHrefs[i];
      assert page.cardHrefs[..i + 1][..i] == page.cardHrefs[..i];
      assert page.cardHrefs[..i + 1][i] == href;
      if Truthy(href) {
        requests := requests + [Request(Follow(page.url, href.value), DetailHandler)];
      }
      i := i + 1;
    }
    assert page.cardHrefs[..i] == page.cardHrefs;
    if Truthy(page.nextHref) {
      requests := requests + [Request(Follow(page.url, page.nextHref.value), ListingHandler)];
    }
  }

  /**
   * What `parse` emits: the first `CountLinked` requests are the detail
   * requests, card by card; the request after them, if any, is the one
   * next-page request, and it exists iff the "Next" link is truthy. A page
   * with no cards and no next link gives nothing.
   */
  lemma ParseOrder(page: ListingPage)
    ensures var r := DetailRequests(page.url, page.cardHrefs) + NextRequest(page.url, page.nextHref);
      var n := CountLinked(page.url, page.cardHrefs);
      |r| == n + (if Truthy(page.nextHref) then 1 else 0) &&
      (forall j :: 0 <= j < n ==> r[j].callback == DetailHandler && r[j].link.base == page.url) &&
      (Truthy(page.nextHref) ==> r[n] == Request(Follow(page.url, page.nextHref.value), ListingHandler)) &&
      (page.cardHrefs == [] && !Truthy(page.nextHref) ==> r == [])
  {
    DetailRequestsPerCard(page.url, page.cardHrefs);
    DetailRequestsShape(page.url, page.cardHrefs);
  }

  // ---------------------------------------------------------------------
  // Detail pages: text fields
  // ---------------------------------------------------------------------

  /**
   * `"".join(texts).strip() if texts else None`: nothing when no text
   * node was found, otherwise the stripped concatenation, which may be
   * empty.
   */
  function JoinStrip(texts: seq<string>): (r: Option<string>)
    ensures r.None? <==> texts == []
    ensures r.Some? ==> r.value == [] || (!IsSpace(r.value[0]) && !IsSpace(r.value[|r.value| - 1]))
  {
    if texts == [] then None else Some(Strip(Concat(texts)))
  }

  /** Text nodes that are all whitespace give `""`, not `None`. */
  lemma WhitespaceTextsGiveEmpty(texts: seq<string>)
    requires texts != [] && forall i :: 0 <= i < |texts| ==> AllSpace(texts[i])
    ensures JoinStrip(texts) == Some("")
  {
    ConcatAllSpace(texts);
  }

  // ---------------------------------------------------------------------
  // Detail pages: the specification table
  // ---------------------------------------------------------------------

  /** One row of the specification table: the key cell's and the value cell's first text. */
  datatype SpecRow = SpecRow(key: Option<string>, value: Option<string>)

  /** A row is read only when both its key and its value are truthy. */
  predicate Accepted(row: SpecRow)
  {
    Truthy(row.key) && Truthy(row.value)
  }

  /** The dictionary key of a raw key: stripped, lower-cased, every `:` removed. */
  function NormalizeKey(k: string): string
  {
    RemoveAll(Lower(Strip(k)), ':')
  }

  /**
   * A normalised key has no `:` and no upper-case letter, and holds every
   * other character of the stripped, lower-cased key.
   */
  lemma NormalizedKeyShape(k: string)
    ensures ':' !in NormalizeKey(k)
    ensures forall i :: 0 <= i < |NormalizeKey(k)| ==> !('A' <= NormalizeKey(k)[i] <= 'Z')
    ensures forall c :: c != ':' ==> (c in NormalizeKey(k) <==> c in Lower(Strip(k)))
  {
    var l := Lower(Strip(k));
    var r := NormalizeKey(k);
    forall i | 0 <= i < |r| ensures !('A' <= r[i] <= 'Z') {
      assert r[i] in r;
      assert r[i] != ':';
      var j :| 0 <= j < |l| && l[j] == r[i];
    }
  }

  function KeyOf(row: SpecRow): string
    requires Accepted(row)
  {
    NormalizeKey(row.key.value)
  }

  function ValueOf(row: SpecRow): string
    requires Accepted(row)
  {
    Strip(row.value.value)
  }

  /** A key and value read from one accepted row. */
  datatype Entry = Entry(key: string, value: string)

  /**
   * The label ` GSM :` gives the key `gsm ` with a trailing space: the
   * strip happens before the colon is removed, so the space in front of
   * the colon stays.
   */
  lemma ExampleGsmKey(k: string)
    requires k == " GSM :"
    ensures NormalizeKey(k) == "gsm "
  {
    StripOneLeadingSpace(k);
    assert k[1..] == "GSM :";
    GsmLabelLowered("GSM :");
    GsmColonRemoved("gsm :");
  }

  /** One leading whitespace character and none at the end: `strip` drops just that one. */
  lemma StripOneLeadingSpace(k: string)
    requires |k| >= 2 && IsSpace(k[0]) && !IsSpace(k[1]) && !IsSpace(k[|k| - 1])
    ensures Strip(k) == k[1..]
  {
    var t := k[1..];
    assert TrimStart(k) == TrimStart(t);
    assert TrimStart(t) == t;
    TrimEndAt(t, |t|);
    assert TrimEnd(t) == t[..|t|] == t;
  }

  lemma GsmColonRemoved(l: string)
    requires l == "gsm :"
    ensures RemoveAll(l, ':') == "gsm "
  {
    assert l == "gsm " + ":";
    RemoveAllAppend("gsm ", ":", ':');
    assert ':' !in "gsm ";
    assert RemoveAll(":", ':') == [];
  }

  lemma GsmLabelLowered(k: string)
    requires k == "GSM :"
    ensures Lower(k) == "gsm :"
  {
  }

  /** The entry row `row` gives: its normalised key and stripped value, if it is accepted. */
  function EntryOf(row: SpecRow): Option<Entry>
  {
    if Accepted(row) then Some(Entry(KeyOf(row), ValueOf(row))) else None
  }

  /** The entries the accepted rows give, in row order. */
  function Entries(rows: seq<SpecRow>): seq<Entry>
  {
    Collect(rows, EntryOf)
  }

  /**
   * Each accepted row gives one entry, its normalised key with its
   * stripped value, at position `CountSome(rows[..i], EntryOf)`, the
   * number of accepted rows before it; rows whose key or value is missing
   * or empty give none. Those positions grow strictly in row order.
   */
  lemma EntriesPerRow(rows: seq<SpecRow>)
    ensures forall i :: 0 <= i < |rows| && Accepted(rows[i]) ==>
      CountSome(rows[..i], EntryOf) < |Entries(rows)| &&
      Entries(rows)[CountSome(rows[..i], EntryOf)] == Entry(KeyOf(rows[i]), ValueOf(rows[i]))
    ensures |Entries(rows)| == CountSome(rows, EntryOf)
    ensures forall i, k :: 0 <= i < k <= |rows| && Accepted(rows[i]) ==>
      CountSome(rows[..i], EntryOf) < CountSome(rows[..k], EntryOf)
  {
    CollectPositions(rows, EntryOf);
  }

  /**
   * A Python dict from strings to strings: `keys` in the order of their
   * first insertion, `entries` the current value of each.
   */
  datatype Dict = Dict(keys: seq<string>, entries: map<string, string>)

  predicate DistinctKeys(keys: seq<string>)
  {
    forall i, j :: 0 <= i < j < |keys| ==> keys[i] != keys[j]
  }

  /** Every key listed once, and exactly the keys of `entries` listed. */
  ghost predicate ValidDict(d: Dict)
  {
    DistinctKeys(d.keys) && (forall k :: k in d.keys <==> k in d.entries)
  }

  /** `d[k] = v`: a new key goes to the end of the order, an existing one keeps its place. */
  function Insert(d: Dict, k: string, v: string): (r: Dict)
    requires ValidDict(d)
    ensures ValidDict(r)
    ensures r.entries == d.entries[k := v]
    ensures k in d.entries ==> r.keys == d.keys
    ensures k !in d.entries ==> r.keys == d.keys + [k]
  {
    if k in d.entries then Dict(d.keys, d.entries[k := v]) else Dict(d.keys + [k], d.entries[k := v])
  }

  /** The dictionary built by assigning the entries in order, starting from `{}`. */
  function DictOf(es: seq<Entry>): (d: Dict)
    ensures ValidDict(d)
  {
    if es == [] then Dict([], map[])
    else
      var last := es[|es| - 1];
      Insert(DictOf(es[..|es| - 1]), last.key, last.value)
  }

  /** `details_dict` for the rows of a specification table. */
  function SpecDict(rows: seq<SpecRow>): Dict
  {
    DictOf(Entries(rows))
  }

  /** The keys the entries `es` give, as a set. */
  function EntryKeys(es: seq<Entry>): set<string>
  {
    set i | 0 <= i < |es| :: es[i].key
  }

  /** Appending an entry to the list assigns it into the dictionary. */
  lemma DictOfAppend(es: seq<Entry>, e: Entry)
    ensures DictOf(es + [e]) == Insert(DictOf(es), e.key, e.value)
  {
    assert (es + [e])[..|es|] == es;
  }

  /** A key is in the dictionary iff some entry has it: one dictionary entry per distinct key. */
  lemma {:induction false} DictKeys(es: seq<Entry>)
    ensures DictOf(es).entries.Keys == EntryKeys(es)
  {
    if es != [] {
      var n := |es| - 1;
      var init := es[..n];
      DictKeys(init);
      assert es == init + [es[n]];
      DictOfAppend(init, es[n]);
      assert EntryKeys(es) == EntryKeys(init) + {es[n].key} by {
        forall k | k in EntryKeys(es) ensures k in EntryKeys(init) + {es[n].key} {
          var i :| 0 <= i < |es| && es[i].key == k;
          if i < n { assert init[i] == es[i]; }
        }
        forall k | k in EntryKeys(init) ensures k in EntryKeys(es) {
          var i :| 0 <= i < n && init[i].key == k;
          assert es[i] == init[i];
        }
      }
    }
  }

  /** The dictionary's key order only grows as entries are assigned. */
  lemma DictKeysGrow(es: seq<Entry>, e: Entry)
    ensures |DictOf(es).keys| <= |DictOf(es + [e]).keys|
    ensures DictOf(es + [e]).keys[..|DictOf(es).keys|] == DictOf(es).keys
  {
    DictOfAppend(es, e);
  }

  /** When several entries share a key, the last of them supplies the value. */
  lemma {:induction false} DictLastWins(es: seq<Entry>, i: int)
    requires 0 <= i < |es|
    requires forall j :: i < j < |es| ==> es[j].key != es[i].key
    ensures es[i].key in DictOf(es).entries
    ensures DictOf(es).entries[es[i].key] == es[i].value
  {
    var n := |es| - 1;
    var init := es[..n];
    assert es == init + [es[n]];
    DictOfAppend(init, es[n]);
    if i < n {
      forall j | i < j < |init| ensures init[j].key != init[i].key {
        assert init[j] == es[j];
      }
      DictLastWins(init, i);
      assert init[i] == es[i];
      assert es[n].key != es[i].key;
    }
  }

  /** A key first given by entry `j` is appended to the order by that entry. */
  lemma NewKeyAppended(es: seq<Entry>, j: int)
    requires 0 <= j < |es|
    requires forall k :: 0 <= k < j ==> es[k].key != es[j].key
    ensures DictOf(es[..j + 1]).keys == DictOf(es[..j]).keys + [es[j].key]
  {
    var init := es[..j];
    DictKeys(init);
    assert es[j].key !in DictOf(init).entries by {
      forall k | 0 <= k < j ensures init[k].key != es[j].key {
        assert init[k] == es[k];
      }
    }
    assert es[..j + 1] == init + [es[j]];
    DictOfAppend(init, es[j]);
  }

  /** The key order of a prefix's dictionary is a prefix of the whole one's. */
  lemma {:induction false} DictKeysPrefix(es: seq<Entry>, m: int)
    requires 0 <= m <= |es|
    ensures |DictOf(es[..m]).keys| <= |DictOf(es).keys|
    ensures DictOf(es).keys[..|DictOf(es[..m]).keys|] == DictOf(es[..m]).keys
  {
    if m < |es| {
      var n := |es| - 1;
      var init := es[..n];
      assert init[..m] == es[..m];
      DictKeysPrefix(init, m);
      assert es == init + [es[n]];
      DictKeysGrow(init, es[n]);
    } else {
      assert es[..m] == es;
    }
  }

  /**
   * The key first given by entry `i` sits in the dictionary's order at
   * position `|DictOf(es[..i]).keys|`, the number of distinct keys before it.
   */
  lemma FirstKeyPosition(es: seq<Entry>, i: int)
    requires 0 <= i < |es|
    requires forall k :: 0 <= k < i ==> es[k].key != es[i].key
    ensures |DictOf(es[..i]).keys| < |DictOf(es).keys|
    ensures DictOf(es).keys[|DictOf(es[..i]).keys|] == es[i].key
  {
    NewKeyAppended(es, i);
    DictKeysPrefix(es, i + 1);
    var ki := DictOf(es[..i + 1]).keys;
    assert ki[|DictOf(es[..i]).keys|] == es[i].key;
  }

  /**
   * Keys are ordered by their first entry: a key first given before
   * another comes before it in the dictionary's order.
   */
  lemma DictOrder(es: seq<Entry>, i: int, j: int)
    requires 0 <= i < j < |es|
    requires forall k :: 0 <= k < i ==> es[k].key != es[i].key
    requires forall k :: 0 <= k < j ==> es[k].key != es[j].key
    ensures exists a, b ::
      (0 <= a < b < |DictOf(es).keys| && DictOf(es).keys[a] == es[i].key && DictOf(es).keys[b] == es[j].key)
  {
    FirstKeyPosition(es, i);
    FirstKeyPosition(es, j);
    var ej := es[..j];
    assert ej[..i] == es[..i];
    assert forall k :: 0 <= k < i ==> ej[k] == es[k];
    FirstKeyPosition(ej, i);
    var a := |DictOf(es[..i]).keys|;
    var b := |DictOf(ej).keys|;
    assert DictOf(es).keys[a] == es[i].key && DictOf(es).keys[b] == es[j].key;
  }

  /** The entries of one more row: one more entry iff the row is accepted. */
  lemma EntriesStep(rows: seq<SpecRow>, i: int)
    requires 0 <= i < |rows|
    ensures Entries(rows[..i + 1]) ==
      Entries(rows[..i]) + (if Accepted(rows[i]) then [Entry(KeyOf(rows[i]), ValueOf(rows[i]))] else [])
  {
    assert rows[..i + 1][..i] == rows[..i];
    assert rows[..i + 1][i] == rows[i];
  }

  /** The dictionary after one more row: that row's entry assigned iff it is accepted. */
  lemma DictStep(rows: seq<SpecRow>, i: int)
    requires 0 <= i < |rows|
    ensures Accepted(rows[i]) ==>
      DictOf(Entries(rows[..i + 1])) == Insert(DictOf(Entries(rows[..i])), KeyOf(rows[i]), ValueOf(rows[i]))
    ensures !Accepted(rows[i]) ==> DictOf(Entries(rows[..i + 1])) == DictOf(Entries(rows[..i]))
  {
    EntriesStep(rows, i);
    var es := Entries(rows[..i]);
    if Accepted(rows[i]) {
      DictOfAppend(es, Entry(KeyOf(rows[i]), ValueOf(rows[i])));
    } else {
      assert es + [] == es;
    }
  }

  /** The row loop of `parse_product_detail` filling `details_dict`. */
  method BuildSpecDict(rows: seq<SpecRow>) returns (keys: seq<string>, entries: map<string, string>)
    ensures Dict(keys, entries) == SpecDict(rows)
  {
    keys, entries := [], map[];
    var i := 0;
    while i < |rows|
      invariant 0 <= i <= |rows|
      invariant Dict(keys, entries) == DictOf(Entries(rows[..i]))
    {
      var row := rows[i];
      DictStep(rows, i);
      if Truthy(row.key) && Truthy(row.value) {
        var cleanKey := NormalizeKey(row.key.value);
        var value := Strip(row.value.value);
        if cleanKey !in entries {
          keys := keys + [cleanKey];
        }
        entries := entries[cleanKey := value];
      }
      i := i + 1;
    }
    assert rows[..|rows|] == rows;
  }

  // ---------------------------------------------------------------------
  // Detail pages: fuzzy field mapping
  // ---------------------------------------------------------------------

  /** The five record fields filled from the specification dictionary. */
  datatype Field = FabricType | Pattern | Gsm | Usage | Availability

  /** Whether dictionary key `key` feeds field `f`. */
  predicate Matches(f: Field, key: string)
  {
    match f
    case FabricType => Contains(key, "fabric") || Contains(key, "material")
    case Pattern => Contains(key, "pattern")
    case Gsm => Contains(key, "gsm")
    case Usage => Contains(key, "usage")
    case Availability => Contains(key, "availability")
  }

  /** The value of the last key, in the order `keys`, that feeds `f`; `None` if none does. */
  function LastMatch(keys: seq<string>, entries: map<string, string>, f: Field): (v: Option<string>)
    requires forall k :: k in keys ==> k in entries
  {
    if keys == [] then None
    else
      var last := keys[|keys| - 1];
      if Matches(f, last) then Some(entries[last]) else LastMatch(keys[..|keys| - 1], entries, f)
  }

  /**
   * `LastMatch` is `None` iff no key feeds the field, and otherwise the
   * value of a key that feeds it with no later key feeding it.
   */
  lemma {:induction false} LastMatchIsLast(keys: seq<string>, entries: map<string, string>, f: Field)
    requires forall k :: k in keys ==> k in entries
    ensures LastMatch(keys, entries, f).None? <==> forall i :: 0 <= i < |keys| ==> !Matches(f, keys[i])
    ensures LastMatch(keys, entries, f).Some? ==>
      exists i :: 0 <= i < |keys| && Matches(f, keys[i]) && LastMatch(keys, entries, f).value == entries[keys[i]] &&
        forall j :: i < j < |keys| ==> !Matches(f, keys[j])
  {
    if keys != [] {
      var n := |keys| - 1;
      var init := keys[..n];
      assert forall k :: k in init ==> k in keys;
      LastMatchIsLast(init, entries, f);
      assert forall i :: 0 <= i < n ==> init[i] == keys[i];
      if !Matches(f, keys[n]) && LastMatch(keys, entries, f).Some? {
        var i :| 0 <= i < n && Matches(f, init[i]) && LastMatch(init, entries, f).value == entries[init[i]] &&
          forall j :: i < j < n ==> !Matches(f, init[j]);
        assert forall j :: i < j < |keys| ==> !Matches(f, keys[j]);
      }
    }
  }

  /** The five mapped fields, each `None` until a matching key sets it. */
  datatype MappedFields = MappedFields(
    fabricType: Option<string>, pattern: Option<string>, gsm: Option<string>,
    usage: Option<string>, availability: Option<string>)

  /** The second loop of `parse_product_detail`, over the dictionary in its order. */
  method MapSpecFields(keys: seq<string>, entries: map<string, string>) returns (m: MappedFields)
    requires forall k :: k in keys ==> k in entries
    ensures m.fabricType == LastMatch(keys, entries, FabricType)
    ensures m.pattern == LastMatch(keys, entries, Pattern)
    ensures m.gsm == LastMatch(keys, entries, Gsm)
    ensures m.usage == LastMatch(keys, entries, Usage)
    ensures m.availability == LastMatch(keys, entries, Availability)
  {
    m := MappedFields(None, None, None, None, None);
    var i := 0;
    while i < |keys|
      invariant 0 <= i <= |keys|
      invariant forall k :: k in keys[..i] ==> k in entries
      invariant m == MappedFields(
        LastMatch(keys[..i], entries, FabricType), LastMatch(keys[..i], entries, Pattern),
        LastMatch(keys[..i], entries, Gsm), LastMatch(keys[..i], entries, Usage),
        LastMatch(keys[..i], entries, Availability))
    {
      var key := keys[i];
      var value := entries[key];
      assert keys[..i + 1][..i] == keys[..i];
      if Contains(key, "fabric") || Contains(key, "material") {
        m := m.(fabricType := Some(value));
      }
      if Contains(key, "pattern") {
        m := m.(pattern := Some(value));
      }
      if Contains(key, "gsm") {
        m := m.(gsm := Some(value));
      }
      if Contains(key, "usage") {
        m := m.(usage := Some(value));
      }
      if Contains(key, "availability") {
        m := m.(availability := Some(value));
      }
      i := i + 1;
    }
    assert keys[..|keys|] == keys;
  }

  // ---------------------------------------------------------------------
  // Detail pages: the record
  // ---------------------------------------------------------------------

  /** What the detail handler reads from a detail page through its selectors. */
  datatype DetailPage = DetailPage(
    url: string, name: Option<string>, dispId: Option<string>, priceTexts: seq<string>,
    location: Option<string>, images: seq<string>, brand: Option<string>,
    descriptionTexts: seq<string>, specRows: seq<SpecRow>)

  /** The product record, with the fields of `IndiamartProductItem`. */
  datatype Item = Item(
    productName: Option<string>, productId: Option<string>, productUrl: string, price: Option<string>,
    fabricType: Option<string>, gsm: Option<string>, pattern: Option<string>, usage: Option<string>,
    brand: Option<string>, productDescription: Option<string>, images: seq<string>,
    location: Option<string>, availability: Option<string>)

  /**
   * `parse_product_detail`: the record's url is the page's, its price
   * and description are the joined, stripped text nodes, the selector
   * results are copied, and the five mapped fields are the last matching
   * entries of the specification dictionary.
   */
  method ParseProductDetail(page: DetailPage) returns (item: Item)
    ensures item.productUrl == page.url
    ensures item.productName == page.name && item.productId == page.dispId
    ensures item.price == JoinStrip(page.priceTexts)
    ensures item.productDescription == JoinStrip(page.descriptionTexts)
    ensures item.location == page.location && item.images == page.images && item.brand == page.brand
    ensures var d := SpecDict(page.specRows);
      item.fabricType == LastMatch(d.keys, d.entries, FabricType) &&
      item.pattern == LastMatch(d.keys, d.entries, Pattern) &&
      item.gsm == LastMatch(d.keys, d.entries, Gsm) &&
      item.usage == LastMatch(d.keys, d.entries, Usage) &&
      item.availability == LastMatch(d.keys, d.entries, Availability)
  {
    var keys, entries := BuildSpecDict(page.specRows);
    var m := MapSpecFields(keys, entries);
    item := Item(
      page.name, page.dispId, page.url, JoinStrip(page.priceTexts),
      m.fabricType, m.gsm, m.pattern, m.usage,
      page.brand, JoinStrip(page.descriptionTexts), page.images,
      page.location, m.availability);
  }

}
