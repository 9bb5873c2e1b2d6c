/**
 * The schema.org JSON-LD builders: Organization, WebSite (with an optional
 * site search action), Service (with optional type, area and offers),
 * BreadcrumbList and FAQPage. JSON values are a datatype; an object is its
 * list of members in insertion order, which is the order they are printed in.
 */
module SeoBuilders {
  import opened Wrappers

  datatype Json = JStr(s: string) | JNum(n: int) | JArr(items: seq<Json>) | JObj(members: seq<(string, Json)>)

  const Context: (string, Json) := ("@context", JStr("https://schema.org"))

  function TypeTag(t: string): (string, Json) {
    ("@type", JStr(t))
  }

  /** The names of the members `ms`. */
  function Names(ms: seq<(string, Json)>): set<string> {
    set m | m in ms :: m.0
  }

  /** Some member of `ms` is named `k`. */
  predicate KeyIn(ms: seq<(string, Json)>, k: string) {
    k in Names(ms)
  }

  /** The object has a member named `k`. */
  predicate HasKey(o: Json, k: string) {
    o.JObj? && KeyIn(o.members, k)
  }

  /** The object has member `k` with value `v`. */
  predicate HasMember(o: Json, k: string, v: Json) {
    o.JObj? && (k, v) in o.members
  }

  /** No name appears twice in `ms`. */
  predicate Distinct(ms: seq<(string, Json)>) {
    forall i, j :: 0 <= i < j < |ms| ==> ms[i].0 != ms[j].0
  }

  /** No member name appears twice. */
  predicate DistinctKeys(o: Json) {
    o.JObj? && Distinct(o.members)
  }

  /** In an object without repeated names, a name has one value. */
  lemma MemberUnique(o: Json, k: string, v1: Json, v2: Json)
    requires DistinctKeys(o) && HasMember(o, k, v1) && HasMember(o, k, v2)
    ensures v1 == v2
  {
    var i :| 0 <= i < |o.members| && o.members[i] == (k, v1);
    var j :| 0 <= j < |o.members| && o.members[j] == (k, v2);
  }

  /** A list of strings as a JSON array. */
  function Strings(xs: seq<string>): (r: Json)
    ensures r.JArr? && |r.items| == |xs|
    ensures forall i :: 0 <= i < |xs| ==> r.items[i] == JStr(xs[i])
  {
    if xs == [] then JArr([]) else JArr([JStr(xs[0])] + Strings(xs[1..]).items)
  }

  /** `...(v && { k: v })`: the member when there is a value, nothing otherwise. */
  function Spread(k: string, v: Option<Json>): (ms: seq<(string, Json)>)
    ensures Names(ms) == if v.Some? then {k} else {}
    ensures v.Some? ==> (k, v.value) in ms
    ensures Distinct(ms)
  {
    if v.Some? then
      var ms := [(k, v.value)];
      assert ms[0] in ms;
      ms
    else []
  }

  /** A name is used in two member lists put together exactly when it is used in one of them. */
  lemma NameInConcat(xs: seq<(string, Json)>, ys: seq<(string, Json)>, k: string)
    ensures k in Names(xs + ys) <==> k in Names(xs) || k in Names(ys)
  {
    if k in Names(xs + ys) {
      var m :| m in xs + ys && m.0 == k;
      assert m in xs || m in ys;
    }
    if k in Names(xs) {
      var m :| m in xs && m.0 == k;
      assert m in xs + ys;
    }
    if k in Names(ys) {
      var m :| m in ys && m.0 == k;
      assert m in xs + ys;
    }
  }

  /** `NameInConcat` for five lists in a row. */
  lemma NameInFive(a: seq<(string, Json)>, b: seq<(string, Json)>, c: seq<(string, Json)>,
                   d: seq<(string, Json)>, e: seq<(string, Json)>, k: string)
    ensures k in Names(a + b + c + d + e) <==>
            k in Names(a) || k in Names(b) || k in Names(c) || k in Names(d) || k in Names(e)
  {
    NameInConcat(a, b, k);
    NameInConcat(a + b, c, k);
    NameInConcat(a + b + c, d, k);
    NameInConcat(a + b + c + d, e, k);
  }

  /** Appending an optional member whose name is not yet used repeats no name. */
  lemma DistinctSpread(xs: seq<(string, Json)>, k: string, v: Option<Json>)
    requires Distinct(xs) && k !in Names(xs)
    ensures Distinct(xs + Spread(k, v))
  {
    var r := xs + Spread(k, v);
    forall i, j | 0 <= i < j < |r| ensures r[i].0 != r[j].0 {
      if j == |xs| {
        assert xs[i] in xs;
      }
    }
  }

  // ---------------------------------------------------------------- Organization

  /** `buildOrganization`; `sameAs` defaults to no profiles. */
  function Organization(name: string, url: string, logo: string, sameAs: Option<seq<string>>): (r: Json)
    ensures DistinctKeys(r)
    ensures HasMember(r, "@context", JStr("https://schema.org"))
    ensures HasMember(r, "@type", JStr("Organization"))
    ensures HasMember(r, "name", JStr(name)) && HasMember(r, "url", JStr(url)) && HasMember(r, "logo", JStr(logo))
    ensures HasMember(r, "sameAs", Strings(sameAs.GetOr([])))
    ensures sameAs.None? ==> HasMember(r, "sameAs", JArr([]))
  {
    JObj([Context, TypeTag("Organization"), ("name", JStr(name)), ("url", JStr(url)), ("logo", JStr(logo)),
          ("sameAs", Strings(sameAs.GetOr([])))])
  }

  // ---------------------------------------------------------------- WebSite

  const QueryInput := "required name=search_term_string"

  /** The site search action: a `SearchAction` whose target is the site's own search page. */
  function SearchAction(url: string): (a: Json)
    ensures DistinctKeys(a)
    ensures HasMember(a, "@type", JStr("SearchAction"))
    ensures HasMember(a, "target", JStr(url + "/search?q={search_term_string}"))
    ensures HasMember(a, "query-input", JStr(QueryInput))
  {
    JObj([TypeTag("SearchAction"), ("target", JStr(url + "/search?q={search_term_string}")), ("query-input", JStr(QueryInput))])
  }

  /** `buildWebsite`: the fixed members, then the search action only when `searchUrl` is truthy. */
  function Website(name: string, url: string, searchUrl: Option<string>): (r: Json)
    ensures r.JObj?
    ensures HasMember(r, "@context", JStr("https://schema.org")) && HasMember(r, "@type", JStr("WebSite"))
    ensures HasMember(r, "name", JStr(name)) && HasMember(r, "url", JStr(url))
    ensures forall m :: m in r.members && m.0 == "potentialAction" ==> m.1 == SearchAction(url)
    ensures searchUrl.Some? && searchUrl.value != "" ==> HasMember(r, "potentialAction", SearchAction(url))
  {
    var base := [Context, TypeTag("WebSite"), ("name", JStr(name)), ("url", JStr(url))];
    assert forall m :: m in base ==> m.0 != "potentialAction";
    assert base[0] in base && base[1] in base && base[2] in base && base[3] in base;
    JObj(base + Spread("potentialAction", if searchUrl.Some? && searchUrl.value != "" then Some(SearchAction(url)) else None))
  }

  /**
   * A site's names are distinct, and the search action is there exactly when
   * `searchUrl` is truthy; it targets the site's own `url`, not `searchUrl`.
   */
  lemma WebsiteSearch(name: string, url: string, searchUrl: Option<string>)
    ensures var r := Website(name, url, searchUrl);
            && DistinctKeys(r)
            && (HasKey(r, "potentialAction") <==> searchUrl.Some? && searchUrl.value != "")
  {
    var base := [Context, TypeTag("WebSite"), ("name", JStr(name)), ("url", JStr(url))];
    var v := if searchUrl.Some? && searchUrl.value != "" then Some(SearchAction(url)) else None;
    assert Names(base) == {"@context", "@type", "name", "url"} by {
      assert base[0] in base && base[1] in base && base[2] in base && base[3] in base;
    }
    assert Distinct(base);
    DistinctSpread(base, "potentialAction", v);
    NameInConcat(base, Spread("potentialAction", v), "potentialAction");
  }

  // ---------------------------------------------------------------- Service

  datatype Offer = Offer(name: string, price: string, priceCurrency: string, url: Option<string>)

  const InStock := "https://schema.org/InStock"

  /** One offer; its URL falls back to the service's when missing or empty. */
  function OfferJson(o: Offer, serviceUrl: string): (r: Json)
    ensures DistinctKeys(r)
    ensures HasMember(r, "url", JStr(if o.url.Some? && o.url.value != "" then o.url.value else serviceUrl))
    ensures HasMember(r, "availability", JStr(InStock))
    ensures HasMember(r, "name", JStr(o.name)) && HasMember(r, "price", JStr(o.price))
    ensures HasMember(r, "priceCurrency", JStr(o.priceCurrency))
  {
    JObj([TypeTag("Offer"), ("name", JStr(o.name)), ("price", JStr(o.price)), ("priceCurrency", JStr(o.priceCurrency)),
          ("url", JStr(if o.url.Some? && o.url.value != "" then o.url.value else serviceUrl)),
          ("availability", JStr(InStock))])
  }

  /** `offers.map(...)`, in order. */
  function Offers(offers: seq<Offer>, serviceUrl: string): (r: seq<Json>)
    ensures |r| == |offers|
    ensures forall i :: 0 <= i < |offers| ==> r[i] == OfferJson(offers[i], serviceUrl)
  {
    if offers == [] then [] else [OfferJson(offers[0], serviceUrl)] + Offers(offers[1..], serviceUrl)
  }

  /** The members of a service in their order, each optional one present exactly when given a value. */
  function ServiceMembers(name: Json, serviceType: Option<Json>, provider: Json, areaServed: Option<Json>,
                          offers: Option<Json>): (ms: seq<(string, Json)>)
    ensures Context in ms && TypeTag("Service") in ms
    ensures ("name", name) in ms && ("provider", provider) in ms
    ensures serviceType.Some? ==> ("serviceType", serviceType.value) in ms
    ensures areaServed.Some? ==> ("areaServed", areaServed.value) in ms
    ensures offers.Some? ==> ("offers", offers.value) in ms
  {
    var a := [Context, TypeTag("Service"), ("name", name)];
    var c := Spread("provider", Some(provider));
    assert a[0] in a && a[1] in a && a[2] in a;
    a + Spread("serviceType", serviceType) + c + Spread("areaServed", areaServed) + Spread("offers", offers)
  }

  /** No two members of a service share a name, whichever optional ones are present. */
  lemma ServiceMembersDistinct(name: Json, serviceType: Option<Json>, provider: Json, areaServed: Option<Json>,
                               offers: Option<Json>)
    ensures Distinct(ServiceMembers(name, serviceType, provider, areaServed, offers))
  {
    var a := [Context, TypeTag("Service"), ("name", name)];
    var b := Spread("serviceType", serviceType);
    var c := Spread("provider", Some(provider));
    var d := Spread("areaServed", areaServed);
    assert Names(a) == {"@context", "@type", "name"} by {
      assert a[0] in a && a[1] in a && a[2] in a;
    }
    assert Distinct(a);
    DistinctSpread(a, "serviceType", serviceType);
    NameInConcat(a, b, "provider");
    DistinctSpread(a + b, "provider", Some(provider));
    NameInConcat(a, b, "areaServed");
    NameInConcat(a + b, c, "areaServed");
    DistinctSpread(a + b + c, "areaServed", areaServed);
    NameInConcat(a, b, "offers");
    NameInConcat(a + b, c, "offers");
    NameInConcat(a + b + c, d, "offers");
    DistinctSpread(a + b + c + d, "offers", offers);
  }

  /** Each optional member of a service is present exactly when it has a value. */
  lemma ServiceMembersNames(name: Json, serviceType: Option<Json>, provider: Json, areaServed: Option<Json>,
                            offers: Option<Json>)
    ensures var ms := ServiceMembers(name, serviceType, provider, areaServed, offers);
            && ("serviceType" in Names(ms) <==> serviceType.Some?)
            && ("areaServed" in Names(ms) <==> areaServed.Some?)
            && ("offers" in Names(ms) <==> offers.Some?)
  {
    var a := [Context, TypeTag("Service"), ("name", name)];
    var b := Spread("serviceType", serviceType);
    var c := Spread("provider", Some(provider));
    var d := Spread("areaServed", areaServed);
    var e := Spread("offers", offers);
    assert Names(a) == {"@context", "@type", "name"} by {
      assert a[0] in a && a[1] in a && a[2] in a;
    }
    NameInFive(a, b, c, d, e, "serviceType");
    NameInFive(a, b, c, d, e, "areaServed");
    NameInFive(a, b, c, d, e, "offers");
  }

  /** `buildService`: members in the order name, service type, provider, area, offers, the optional ones only when given. */
  function Service(name: string, serviceType: Option<string>, providerName: string, url: string,
                   areaServed: Option<string>, offers: Option<seq<Offer>>): (r: Json)
    ensures DistinctKeys(r)
    ensures HasKey(r, "serviceType") <==> serviceType.Some? && serviceType.value != ""
    ensures HasKey(r, "serviceType") ==> HasMember(r, "serviceType", JStr(serviceType.value))
    ensures HasMember(r, "@context", JStr("https://schema.org")) && HasMember(r, "@type", JStr("Service"))
    ensures HasKey(r, "areaServed") <==> areaServed.Some? && areaServed.value != ""
    ensures HasKey(r, "areaServed") ==> HasMember(r, "areaServed", JObj([TypeTag("Place"), ("name", JStr(areaServed.value))]))
    ensures HasKey(r, "offers") <==> offers.Some?
    ensures offers.Some? ==> HasMember(r, "offers", JArr(Offers(offers.value, url)))
    ensures HasMember(r, "provider", JObj([TypeTag("Organization"), ("name", JStr(providerName))]))
    ensures HasMember(r, "name", JStr(name))
  {
    var st := if serviceType.Some? && serviceType.value != "" then Some(JStr(serviceType.value)) else None;
    var area := if areaServed.Some? && areaServed.value != "" then Some(JObj([TypeTag("Place"), ("name", JStr(areaServed.value))])) else None;
    var off := if offers.Some? then Some(JArr(Offers(offers.value, url))) else None;
    var provider := JObj([TypeTag("Organization"), ("name", JStr(providerName))]);
    ServiceMembersDistinct(JStr(name), st, provider, area, off);
    ServiceMembersNames(JStr(name), st, provider, area, off);
    JObj(ServiceMembers(JStr(name), st, provider, area, off))
  }

  /** Every offer in a service is in stock and has a URL, its own or the service's. */
  lemma ServiceOffers(name: string, serviceType: Option<string>, providerName: string, url: string,
                      areaServed: Option<string>, offers: seq<Offer>, i: int)
    requires 0 <= i < |offers|
    ensures var r := Offers(offers, url);
            && HasMember(Service(name, serviceType, providerName, url, areaServed, Some(offers)), "offers", JArr(r))
            && |r| == |offers|
            && HasMember(r[i], "availability", JStr(InStock))
            && HasMember(r[i], "url", JStr(if offers[i].url.Some? && offers[i].url.value != "" then offers[i].url.value else url))
  {
  }

  // ---------------------------------------------------------------- BreadcrumbList

  datatype Crumb = Crumb(name: string, path: string)

  function ListItem(position: int, c: Crumb, baseUrl: string): Json {
    JObj([TypeTag("ListItem"), ("position", JNum(position)), ("name", JStr(c.name)), ("item", JStr(baseUrl + c.path))])
  }

  /** The list items for `items`, the first at position `first`. */
  function ListItems(items: seq<Crumb>, baseUrl: string, first: int): (r: seq<Json>)
    ensures |r| == |items|
    ensures forall i :: 0 <= i < |items| ==> r[i] == ListItem(first + i, items[i], baseUrl)
  {
    if items == [] then [] else [ListItem(first, items[0], baseUrl)] + ListItems(items[1..], baseUrl, first + 1)
  }

  /** `buildBreadcrumbs`. */
  function Breadcrumbs(baseUrl: string, items: seq<Crumb>): (r: Json)
    ensures DistinctKeys(r)
    ensures HasMember(r, "@context", JStr("https://schema.org"))
    ensures HasMember(r, "@type", JStr("BreadcrumbList"))
    ensures HasMember(r, "itemListElement", JArr(ListItems(items, baseUrl, 1)))
  {
    JObj([Context, TypeTag("BreadcrumbList"), ("itemListElement", JArr(ListItems(items, baseUrl, 1)))])
  }

  /** Breadcrumb `i` is numbered `i + 1`, keeps its name and links to the base URL followed by its path. */
  lemma BreadcrumbPositions(baseUrl: string, items: seq<Crumb>, i: int)
    requires 0 <= i < |items|
    ensures var r := ListItems(items, baseUrl, 1);
            && HasMember(Breadcrumbs(baseUrl, items), "itemListElement", JArr(r))
            && |r| == |items|
            && DistinctKeys(r[i])
            && HasMember(r[i], "position", JNum(i + 1))
            && HasMember(r[i], "name", JStr(items[i].name))
            && HasMember(r[i], "item", JStr(baseUrl + items[i].path))
  {
  }

  // ---------------------------------------------------------------- FAQPage

  datatype Faq = Faq(q: string, a: string)

  function Question(f: Faq): Json {
    JObj([TypeTag("Question"), ("name", JStr(f.q)), ("acceptedAnswer", JObj([TypeTag("Answer"), ("text", JStr(f.a))]))])
  }

  function Questions(faqs: seq<Faq>): (r: seq<Json>)
    ensures |r| == |faqs|
    ensures forall i :: 0 <= i < |faqs| ==> r[i] == Question(faqs[i])
  {
    if faqs == [] then [] else [Question(faqs[0])] + Questions(faqs[1..])
  }

  /** `buildFAQ`. */
  function FaqPage(faqs: seq<Faq>): (r: Json)
    ensures DistinctKeys(r)
    ensures HasMember(r, "@context", JStr("https://schema.org"))
    ensures HasMember(r, "@type", JStr("FAQPage"))
    ensures HasMember(r, "mainEntity", JArr(Questions(faqs)))
  {
    JObj([Context, TypeTag("FAQPage"), ("mainEntity", JArr(Questions(faqs)))])
  }

  /** Question `i` is named by the `i`-th question and answered by the `i`-th answer. */
  lemma FaqOrder(faqs: seq<Faq>, i: int)
    requires 0 <= i < |faqs|
    ensures var r := Questions(faqs);
            && HasMember(FaqPage(faqs), "mainEntity", JArr(r))
            && |r| == |faqs|
            && DistinctKeys(r[i])
            && HasMember(r[i], "@type", JStr("Question"))
            && HasMember(r[i], "name", JStr(faqs[i].q))
            && HasMember(r[i], "acceptedAnswer", JObj([TypeTag("Answer"), ("text", JStr(faqs[i].a))]))
  {
  }
}
