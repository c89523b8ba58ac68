/** Giving signed upload URLs from a server's response to the objects that are to be uploaded. */
module SignedUrls {
  import opened Core
  import opened Json

  /** An object to upload: its path, and the URL it has been given. */
  datatype Target = Target(path: Option<string>, url: Option<string>)

  /** What one entry of the response offers. */
  datatype Offer = Offer(path: string, url: Option<string>)

  const OBJECT_URLS_KEY := "objectUrls"
  const SIGNED_URL_KEY := "signedUrl"
  const OBJECT_PATH_KEY := "path"

  // ----- entries -----

  /** An entry without a URL, or with something else in its place, offers none. */
  function UrlOf(item: Json): Option<string> {
    match GetObjectItem(item, SIGNED_URL_KEY)
    case Failure(_) => None
    case Success(url) =>
      match GetString(url)
      case Failure(_) => None
      case Success(u) => u
  }

  /** The client id and the slash in front of a path are skipped by their length; a path that is not
      longer is passed over. */
  function OfferOf(item: Json, overhead: nat): (r: Result<Option<Offer>>)
    ensures r.Failure? ==> r.code != Ok
  {
    var json :- GetObjectItem(item, OBJECT_PATH_KEY);
    var path :- GetString(json);
    if path.None? || |path.value| <= overhead then Success(None)
    else Success(Some(Offer(path.value[overhead..], UrlOf(item))))
  }

  /** The first object with the path that has no URL yet takes what is offered. */
  function Assign(ts: seq<Target>, offer: Offer): (r: seq<Target>)
    ensures |r| == |ts|
  {
    if ts == [] then []
    else if ts[0].url.None? && ts[0].path == Some(offer.path) then [ts[0].(url := offer.url)] + ts[1..]
    else [ts[0]] + Assign(ts[1..], offer)
  }

  function AssignAll(ts: seq<Target>, offers: seq<Offer>): seq<Target>
    decreases offers
  {
    if offers == [] then ts else AssignAll(Assign(ts, offers[0]), offers[1..])
  }

  // ----- what each path gets -----

  /** The URLs of the objects with a path, in their order. */
  function UrlsOf(ts: seq<Target>, path: string): seq<Option<string>> {
    if ts == [] then []
    else (if ts[0].path == Some(path) then [ts[0].url] else []) + UrlsOf(ts[1..], path)
  }

  /** The URLs that are offered for a path, in their order. */
  function Offered(offers: seq<Offer>, path: string): seq<string> {
    if offers == [] then [] else Wanted(offers[0], path) + Offered(offers[1..], path)
  }

  function Wanted(offer: Offer, path: string): seq<string> {
    if offer.path == path && offer.url.Some? then [offer.url.value] else []
  }

  /** n places, the first of which have taken the URLs. */
  function Taken(urls: seq<string>, n: nat): (r: seq<Option<string>>)
    ensures |r| == n
    ensures forall i :: 0 <= i < n ==> r[i] == if i < |urls| then Some(urls[i]) else None
  {
    if n == 0 then []
    else if urls == [] then [None] + Taken([], n - 1)
    else [Some(urls[0])] + Taken(urls[1..], n - 1)
  }

  function FillFirst(us: seq<Option<string>>, url: Option<string>): seq<Option<string>> {
    if us == [] then []
    else if us[0].None? then [url] + us[1..]
    else [us[0]] + FillFirst(us[1..], url)
  }

  lemma {:induction false} AssignFills(ts: seq<Target>, offer: Offer, path: string)
    ensures UrlsOf(Assign(ts, offer), path)
            == if offer.path == path then FillFirst(UrlsOf(ts, path), offer.url) else UrlsOf(ts, path)
  {
    if ts != [] {
      AssignFills(ts[1..], offer, path);
      var after, rest := Assign(ts, offer), UrlsOf(ts[1..], path);
      assert ([ts[0].url] + rest)[1..] == rest && [] + rest == rest;
      if ts[0].url.None? && ts[0].path == Some(offer.path) {
        assert after[1..] == ts[1..];
      } else {
        assert after[1..] == Assign(ts[1..], offer);
      }
    }
  }

  lemma {:induction false} FillTaken(urls: seq<string>, n: nat, url: Option<string>)
    ensures FillFirst(Taken(urls, n), url)
            == if url.Some? then Taken(urls + [url.value], n) else Taken(urls, n)
  {
    if n > 0 {
      if urls == [] {
        assert Taken(urls, n)[1..] == Taken([], n - 1);
        if url.Some? {
          assert ([] + [url.value])[1..] == [];
        }
      } else {
        FillTaken(urls[1..], n - 1, url);
        assert Taken(urls, n)[1..] == Taken(urls[1..], n - 1);
        if url.Some? {
          assert (urls + [url.value])[1..] == urls[1..] + [url.value];
        }
      }
    }
  }

  lemma AssignTakes(ts: seq<Target>, offer: Offer, path: string, urls: seq<string>, n: nat)
    requires UrlsOf(ts, path) == Taken(urls, n)
    ensures UrlsOf(Assign(ts, offer), path) == Taken(urls + Wanted(offer, path), n)
  {
    AssignFills(ts, offer, path);
    FillTaken(urls, n, offer.url);
    assert urls + [] == urls;
  }

  lemma {:induction false} TakenInOrder(ts: seq<Target>, offers: seq<Offer>, path: string, urls: seq<string>, n: nat)
    requires UrlsOf(ts, path) == Taken(urls, n)
    ensures UrlsOf(AssignAll(ts, offers), path) == Taken(urls + Offered(offers, path), n)
    decreases |offers|
  {
    if offers == [] {
      assert urls + [] == urls;
    } else {
      AssignTakes(ts, offers[0], path, urls, n);
      TakenInOrder(Assign(ts, offers[0]), offers[1..], path, urls + Wanted(offers[0], path), n);
      Associate(urls, Wanted(offers[0], path), Offered(offers[1..], path));
    }
  }

  predicate Cleared(ts: seq<Target>) {
    forall i :: 0 <= i < |ts| ==> ts[i].url.None?
  }

  lemma {:induction false} ClearedUrls(ts: seq<Target>, path: string)
    requires Cleared(ts)
    ensures UrlsOf(ts, path) == Taken([], |UrlsOf(ts, path)|)
  {
    if ts != [] {
      assert forall i :: 0 <= i < |ts[1..]| ==> ts[1..][i] == ts[i + 1];
      ClearedUrls(ts[1..], path);
    }
  }

  /** For each path, the objects that have it take the URLs offered for it in their order, one each,
      until one of both runs out.  No URL is given twice or replaced. */
  lemma UrlsAreTakenInOrder(ts: seq<Target>, offers: seq<Offer>, path: string)
    requires Cleared(ts)
    ensures UrlsOf(AssignAll(ts, offers), path) == Taken(Offered(offers, path), |UrlsOf(ts, path)|)
  {
    ClearedUrls(ts, path);
    TakenInOrder(ts, offers, path, [], |UrlsOf(ts, path)|);
    assert [] + Offered(offers, path) == Offered(offers, path);
  }

  // ----- success -----

  predicate Complete(ts: seq<Target>) {
    forall i :: 0 <= i < |ts| ==> (ts[i].path.Some? ==> ts[i].url.Some?)
  }

  /** Some object with the path has no URL. */
  predicate Lacks(ts: seq<Target>, path: string) {
    None in UrlsOf(ts, path)
  }

  lemma LacksFirst(ts: seq<Target>, path: string)
    requires ts != []
    ensures Lacks(ts, path) <==> (ts[0].path == Some(path) && ts[0].url.None?) || Lacks(ts[1..], path)
  {
  }

  lemma {:induction false} CompleteByPath(ts: seq<Target>)
    ensures Complete(ts) <==> forall path :: !Lacks(ts, path)
  {
    if ts != [] {
      var rest := ts[1..];
      CompleteByPath(rest);
      forall path ensures Lacks(ts, path) <==> (ts[0].path == Some(path) && ts[0].url.None?) || Lacks(rest, path) {
        LacksFirst(ts, path);
      }
      assert forall i :: 0 <= i < |rest| ==> rest[i] == ts[i + 1];
      assert forall i :: 1 <= i < |ts| ==> ts[i] == rest[i - 1];
      assert Complete(ts) <==> (ts[0].path.Some? ==> ts[0].url.Some?) && Complete(rest);
      if ts[0].path.Some? && ts[0].url.None? {
        assert Lacks(ts, ts[0].path.value);
      }
    } else {
      assert forall path :: !Lacks(ts, path);
    }
  }

  lemma TakenIsFull(urls: seq<string>, n: nat)
    ensures None !in Taken(urls, n) <==> n <= |urls|
  {
    if n > |urls| {
      assert Taken(urls, n)[n - 1] == None;
    }
  }

  /** At least as many URLs are offered for a path as there are objects with it. */
  predicate Enough(ts: seq<Target>, offers: seq<Offer>, path: string) {
    |UrlsOf(ts, path)| <= |Offered(offers, path)|
  }

  /** Every object with a path ends up with a URL exactly if enough are offered for each path. */
  lemma CompleteIff(ts: seq<Target>, offers: seq<Offer>)
    requires Cleared(ts)
    ensures Complete(AssignAll(ts, offers)) <==> forall path :: Enough(ts, offers, path)
  {
    var after := AssignAll(ts, offers);
    CompleteByPath(after);
    forall path ensures !Lacks(after, path) <==> Enough(ts, offers, path) {
      UrlsAreTakenInOrder(ts, offers, path);
      TakenIsFull(Offered(offers, path), |UrlsOf(ts, path)|);
    }
  }

  /** The objects with the path have taken the URLs offered for it in order. */
  predicate InOrder(ts: seq<Target>, offers: seq<Offer>, path: string) {
    UrlsOf(ts, path) == Taken(Offered(offers, path), |UrlsOf(ts, path)|)
  }

  lemma AfterAssigning(ts: seq<Target>, offers: seq<Offer>)
    requires Cleared(ts)
    ensures var after := AssignAll(ts, offers);
            && (Complete(after) <==> forall path :: Enough(after, offers, path))
            && forall path :: InOrder(after, offers, path)
  {
    var after := AssignAll(ts, offers);
    CompleteIff(ts, offers);
    forall path ensures InOrder(after, offers, path) && (Enough(after, offers, path) <==> Enough(ts, offers, path)) {
      UrlsAreTakenInOrder(ts, offers, path);
    }
  }

  // ----- responses -----

  /** The offers of a response up to the first entry that cannot be read, and the error there. */
  datatype Reading = Reading(code: Code, offers: seq<Offer>)

  function ReadEntries(items: seq<Json>, overhead: nat): Reading {
    if items == [] then Reading(Ok, [])
    else
      match OfferOf(items[0], overhead)
      case Failure(code) => Reading(code, [])
      case Success(offer) =>
        var others := ReadEntries(items[1..], overhead);
        if offer.None? then others else others.(offers := [offer.value] + others.offers)
  }

  /** None stands for an empty response. */
  function ReadResponse(response: Option<Result<Json>>, overhead: nat): Reading {
    match response
    case None => Reading(InvalidParameter, [])
    case Some(Failure(code)) => Reading(code, [])
    case Some(Success(json)) =>
      match GetObjectItem(json, OBJECT_URLS_KEY)
      case Failure(code) => Reading(code, [])
      case Success(urls) => if urls.JArray? then ReadEntries(urls.items, overhead) else Reading(JsonTypeMismatch, [])
  }

  // ----- responses in plain terms -----

  /** The entry of a server for a path and its URL. */
  function Entry(client: string, path: string, url: string): Json {
    JObject([Field("path", JString(client + "/" + path)), Field("signedUrl", JString(url))])
  }

  function Entries(client: string, listed: seq<(string, string)>): seq<Json> {
    if listed == [] then [] else [Entry(client, listed[0].0, listed[0].1)] + Entries(client, listed[1..])
  }

  function Response(client: string, listed: seq<(string, string)>): Json {
    JObject([Field("objectUrls", JArray(Entries(client, listed)))])
  }

  function AllOffered(listed: seq<(string, string)>): seq<Offer> {
    if listed == [] then [] else [Offer(listed[0].0, Some(listed[0].1))] + AllOffered(listed[1..])
  }

  /** The URLs that are listed for a path, in their order. */
  function UrlsFor(listed: seq<(string, string)>, path: string): seq<string> {
    if listed == [] then []
    else (if listed[0].0 == path then [listed[0].1] else []) + UrlsFor(listed[1..], path)
  }

  lemma FindInTwo(name: string, value: Json, other: string, second: Json)
    requires |name| != |other|
    ensures Find([Field(name, value), Field(other, second)], name) == Some(value)
    ensures Find([Field(name, value), Field(other, second)], other) == Some(second)
  {
    assert [Field(name, value), Field(other, second)][1..][0] == Field(other, second);
  }

  lemma FindInOne(name: string, value: Json, other: string)
    requires |name| != |other|
    ensures Find([Field(name, value)], name) == Some(value) && Find([Field(name, value)], other) == None
  {
    assert [Field(name, value)][1..] == [];
  }

  /** An entry offers its URL for the path behind the client id and the slash. */
  lemma EntryOffers(client: string, path: string, url: string)
    requires path != ""
    ensures OfferOf(Entry(client, path, url), |client| + 1) == Success(Some(Offer(path, Some(url))))
  {
    FindInTwo("path", JString(client + "/" + path), "signedUrl", JString(url));
    assert (client + "/" + path)[|client| + 1..] == path;
  }

  /** Other entries: one whose path is no longer than the client id and the slash is passed over, one
      without a usable URL offers none, and one without a readable path ends the reading. */
  lemma OtherEntries(client: string, path: string, url: Json, short: string, other: Json)
    requires path != "" && !url.JString? && |short| <= |client| + 1 && !other.JString? && !other.JNull?
    ensures OfferOf(JObject([Field("path", JString(client + "/" + path))]), |client| + 1)
            == Success(Some(Offer(path, None)))
    ensures OfferOf(JObject([Field("path", JString(client + "/" + path)), Field("signedUrl", url)]), |client| + 1)
            == Success(Some(Offer(path, None)))
    ensures OfferOf(JObject([Field("path", JString(short)), Field("signedUrl", url)]), |client| + 1) == Success(None)
    ensures OfferOf(JObject([Field("path", other)]), |client| + 1) == Failure(JsonTypeMismatch)
    ensures OfferOf(JObject([Field("signedUrl", url)]), |client| + 1) == Failure(JsonNonExistingChild)
  {
    FindInOne("path", JString(client + "/" + path), "signedUrl");
    FindInTwo("path", JString(client + "/" + path), "signedUrl", url);
    FindInTwo("path", JString(short), "signedUrl", url);
    FindInOne("path", other, "signedUrl");
    FindInOne("signedUrl", url, "path");
    assert (client + "/" + path)[|client| + 1..] == path;
  }

  /** A response that is missing, that could not be parsed, or in which no array is found. */
  lemma OtherResponses(code: Code, other: Json, overhead: nat)
    requires !other.JArray?
    ensures ReadResponse(None, overhead) == Reading(InvalidParameter, [])
    ensures ReadResponse(Some(Failure(code)), overhead) == Reading(code, [])
    ensures ReadResponse(Some(Success(JObject([]))), overhead) == Reading(JsonNonExistingChild, [])
    ensures ReadResponse(Some(Success(JObject([Field("objectUrls", other)]))), overhead) == Reading(JsonTypeMismatch, [])
  {
    FindInOne("objectUrls", other, "");
  }

  predicate NamesPaths(listed: seq<(string, string)>) {
    forall i :: 0 <= i < |listed| ==> listed[i].0 != ""
  }

  lemma {:induction false} EntriesOffer(client: string, listed: seq<(string, string)>)
    requires NamesPaths(listed)
    ensures ReadEntries(Entries(client, listed), |client| + 1) == Reading(Ok, AllOffered(listed))
  {
    if listed != [] {
      var first, rest := Entry(client, listed[0].0, listed[0].1), Entries(client, listed[1..]);
      assert forall i :: 0 <= i < |listed[1..]| ==> listed[1..][i] == listed[i + 1];
      EntryOffers(client, listed[0].0, listed[0].1);
      EntriesOffer(client, listed[1..]);
      assert Entries(client, listed)[0] == first && Entries(client, listed)[1..] == rest;
    }
  }

  lemma ResponseOffers(client: string, listed: seq<(string, string)>)
    requires NamesPaths(listed)
    ensures ReadResponse(Some(Success(Response(client, listed))), |client| + 1) == Reading(Ok, AllOffered(listed))
  {
    FindInOne("objectUrls", JArray(Entries(client, listed)), "");
    EntriesOffer(client, listed);
  }

  lemma {:induction false} OfferedIs(listed: seq<(string, string)>, path: string)
    ensures Offered(AllOffered(listed), path) == UrlsFor(listed, path)
  {
    if listed != [] {
      OfferedIs(listed[1..], path);
      assert AllOffered(listed)[1..] == AllOffered(listed[1..]);
    }
  }

  predicate EnoughListed(ts: seq<Target>, listed: seq<(string, string)>, path: string) {
    |UrlsOf(ts, path)| <= |UrlsFor(listed, path)|
  }

  predicate TakenAsListed(ts: seq<Target>, listed: seq<(string, string)>, path: string) {
    UrlsOf(ts, path) == Taken(UrlsFor(listed, path), |UrlsOf(ts, path)|)
  }

  /** The response of a server that lists these paths and URLs for the client. */
  predicate IsResponse(response: Option<Result<Json>>, client: string, listed: seq<(string, string)>, clientIdLength: nat) {
    response == Some(Success(Response(client, listed))) && |client| == clientIdLength && NamesPaths(listed)
  }

  lemma ListedMeans(ts: seq<Target>)
    ensures forall listed, path :: Enough(ts, AllOffered(listed), path) <==> EnoughListed(ts, listed, path)
    ensures forall listed, path :: InOrder(ts, AllOffered(listed), path) <==> TakenAsListed(ts, listed, path)
  {
    forall listed, path
      ensures Enough(ts, AllOffered(listed), path) <==> EnoughListed(ts, listed, path)
      ensures InOrder(ts, AllOffered(listed), path) <==> TakenAsListed(ts, listed, path)
    {
      OfferedIs(listed, path);
    }
  }

  /** With the response of a server that lists paths and URLs, the objects with a path take its URLs in the
      order in which they are listed; all objects have one exactly if enough are listed for each path. */
  lemma ListedUrlsAreTaken(ts: seq<Target>, client: string, listed: seq<(string, string)>)
    requires Cleared(ts) && NamesPaths(listed)
    ensures var reading := ReadResponse(Some(Success(Response(client, listed))), |client| + 1);
            var after := AssignAll(ts, reading.offers);
            && reading.code == Ok
            && (forall path :: UrlsOf(after, path) == Taken(UrlsFor(listed, path), |UrlsOf(ts, path)|))
            && (Complete(after) <==> forall path :: EnoughListed(ts, listed, path))
  {
    ResponseOffers(client, listed);
    var offers := AllOffered(listed);
    var after := AssignAll(ts, offers);
    CompleteIff(ts, offers);
    forall path
      ensures UrlsOf(after, path) == Taken(UrlsFor(listed, path), |UrlsOf(ts, path)|)
      ensures Enough(ts, offers, path) <==> EnoughListed(ts, listed, path)
    {
      OfferedIs(listed, path);
      UrlsAreTakenInOrder(ts, offers, path);
    }
  }

  // ----- objects -----

  class DataLakeObject {
    const path: Option<string>
    var signedUrl: Option<string>

    constructor (path: Option<string>)
      ensures this.path == path && signedUrl == None
    {
      this.path, signedUrl := path, None;
    }
  }

  /** An array may list an object more than once; what counts is where it comes first. */
  ghost function Firsts(objects: seq<DataLakeObject>): (r: seq<DataLakeObject>)
    ensures forall i :: 0 <= i < |r| ==> r[i] in objects
    ensures forall i :: 0 <= i < |objects| ==> objects[i] in r
  {
    if objects == [] then []
    else
      var init, last := objects[..|objects| - 1], objects[|objects| - 1];
      InitAndLast(objects);
      if last in init then Firsts(init) else Firsts(init) + [last]
  }

  lemma NextFirst(objects: seq<DataLakeObject>, i: nat, next: nat)
    requires next == i + 1 <= |objects|
    ensures Firsts(objects[..next])
            == if objects[i] in objects[..i] then Firsts(objects[..i]) else Firsts(objects[..i]) + [objects[i]]
  {
    assert objects[..next][..i] == objects[..i];
  }

  lemma {:induction false} FirstsDiffer(objects: seq<DataLakeObject>, i: nat, j: nat)
    requires i < j < |Firsts(objects)|
    ensures Firsts(objects)[i] != Firsts(objects)[j]
  {
    var init, last := objects[..|objects| - 1], objects[|objects| - 1];
    if j < |Firsts(init)| {
      FirstsDiffer(init, i, j);
    } else {
      assert Firsts(init)[i] in Firsts(init);
    }
  }

  lemma {:induction false} FirstsAreInOrder(objects: seq<DataLakeObject>, i: nat)
    requires i <= |objects|
    ensures Firsts(objects[..i]) <= Firsts(objects)
    decreases |objects| - i
  {
    if i < |objects| {
      var next := i + 1;
      NextFirst(objects, i, next);
      FirstsAreInOrder(objects, next);
    } else {
      assert objects[..i] == objects;
    }
  }

  ghost function TargetsOf(objects: seq<DataLakeObject>): (r: seq<Target>)
    reads objects
    ensures |r| == |objects|
    ensures forall i :: 0 <= i < |objects| ==> r[i] == Target(objects[i].path, objects[i].signedUrl)
  {
    if objects == [] then [] else [Target(objects[0].path, objects[0].signedUrl)] + TargetsOf(objects[1..])
  }

  /** The objects of an array, each once. */
  ghost function Targets(objects: seq<DataLakeObject>): seq<Target>
    reads objects
  {
    TargetsOf(Firsts(objects))
  }

  lemma AllTargets(objects: seq<DataLakeObject>)
    ensures Complete(Targets(objects))
            <==> forall i :: 0 <= i < |objects| ==> (objects[i].path.Some? ==> objects[i].signedUrl.Some?)
    ensures (forall i :: 0 <= i < |objects| ==> objects[i].signedUrl.None?) ==> Cleared(Targets(objects))
  {
    var fs := Firsts(objects);
    if Complete(Targets(objects)) {
      forall i | 0 <= i < |objects| ensures objects[i].path.Some? ==> objects[i].signedUrl.Some? {
        assert objects[i] in fs;
        var k :| 0 <= k < |fs| && fs[k] == objects[i];
        assert Targets(objects)[k].path == objects[i].path;
      }
    }
    forall k | 0 <= k < |fs| ensures exists i :: 0 <= i < |objects| && objects[i] == fs[k] {
      assert fs[k] in objects;
    }
  }

  method ClearSignedUrls(objects: seq<DataLakeObject>)
    modifies objects
    ensures Cleared(Targets(objects))
  {
    for index := 0 to |objects|
      invariant forall i :: 0 <= i < index ==> objects[i].signedUrl.None?
    {
      objects[index].signedUrl := None;
    }
    AllTargets(objects);
  }

  /** The place where an offer goes, the number of objects if there is none. */
  lemma {:induction false} AssignAt(ts: seq<Target>, offer: Offer, k: nat)
    requires k <= |ts|
    requires forall i :: 0 <= i < k ==> !(ts[i].url.None? && ts[i].path == Some(offer.path))
    requires k < |ts| ==> ts[k].url.None? && ts[k].path == Some(offer.path)
    ensures Assign(ts, offer) == if k < |ts| then ts[k := ts[k].(url := offer.url)] else ts
  {
    if k > 0 {
      AssignAt(ts[1..], offer, k - 1);
    }
  }

  /** An object that waits for a URL for the path. */
  predicate Waits(x: DataLakeObject, path: string)
    reads x
  {
    x.signedUrl.None? && x.path == Some(path)
  }

  /** The first place of the array with a waiting object is that object's first place. */
  lemma WaitingPlace(objects: seq<DataLakeObject>, index: nat, path: string) returns (k: nat)
    requires index < |objects| && Waits(objects[index], path)
    requires forall i :: 0 <= i < index ==> !Waits(objects[i], path)
    ensures k < |Firsts(objects)| && Firsts(objects)[k] == objects[index]
    ensures forall i :: 0 <= i < k ==> !Waits(Firsts(objects)[i], path)
  {
    var before, next := objects[..index], index + 1;
    k := |Firsts(before)|;
    NextFirst(objects, index, next);
    FirstsAreInOrder(objects, next);
    FirstsAreInOrder(objects, index);
    forall i | 0 <= i < k ensures !Waits(Firsts(objects)[i], path) {
      assert Firsts(objects)[i] == Firsts(before)[i];
      assert Firsts(before)[i] in before;
    }
  }

  /** Gives the URL of an entry to the first object that waits for it.  An entry without a URL leaves
      the objects as they are. */
  method FindMatchingObject(item: Json, objects: seq<DataLakeObject>, path: string)
    modifies objects
    ensures Targets(objects) == Assign(old(Targets(objects)), Offer(path, UrlOf(item)))
  {
    ghost var ts, fs := Targets(objects), Firsts(objects);
    var index := 0;
    while index < |objects|
      invariant 0 <= index <= |objects| && Targets(objects) == ts
      invariant forall i :: 0 <= i < index ==> !Waits(objects[i], path)
    {
      if objects[index].signedUrl.None? && objects[index].path == Some(path) {
        ghost var k := WaitingPlace(objects, index, path);
        AssignAt(ts, Offer(path, UrlOf(item)), k);
        SetUrl(item, objects[index], objects, k);
        return;
      }
      index := index + 1;
    }
    forall i | 0 <= i < |fs| ensures !Waits(fs[i], path) {
      assert fs[i] in objects;
    }
    AssignAt(ts, Offer(path, UrlOf(item)), |ts|);
  }

  method SetUrl(item: Json, x: DataLakeObject, ghost objects: seq<DataLakeObject>, ghost k: nat)
    requires k < |Firsts(objects)| && x == Firsts(objects)[k] && x.signedUrl.None?
    modifies x
    ensures Targets(objects) == old(Targets(objects))[k := Target(x.path, UrlOf(item))]
  {
    ghost var fs := Firsts(objects);
    forall i | 0 <= i < |fs| && i != k ensures fs[i] != x {
      FirstsDiffer(objects, if i < k then i else k, if i < k then k else i);
    }
    var json := GetObjectItem(item, SIGNED_URL_KEY);
    if json.Success? {
      var url := GetString(json.value);
      if url.Success? {
        x.signedUrl := url.value;
      }
    }
  }

  method CheckSignedUrls(objects: seq<DataLakeObject>) returns (code: Code)
    ensures code == if Complete(Targets(objects)) then Ok else SignedUrlGenerationFail
  {
    code := Ok;
    for index := 0 to |objects|
      invariant code == if forall i :: 0 <= i < index ==> (objects[i].path.Some? ==> objects[i].signedUrl.Some?)
                        then Ok else SignedUrlGenerationFail
    {
      if objects[index].path.Some? && objects[index].signedUrl.None? {
        code := SignedUrlGenerationFail;
      }
    }
    AllTargets(objects);
  }

  // ----- matching -----

  /** What has been read and given so far, and what is still to come. */
  ghost predicate ReadSoFar(total: Reading, ts: seq<Target>, now: seq<Target>, items: seq<Json>, overhead: nat, code: Code) {
    if code == Ok then
      var rest := ReadEntries(items, overhead);
      total.code == rest.code && AssignAll(ts, total.offers) == AssignAll(now, rest.offers)
    else total.code == code && AssignAll(ts, total.offers) == now
  }

  lemma ReadFirst(total: Reading, ts: seq<Target>, now: seq<Target>, items: seq<Json>, overhead: nat)
    requires items != [] && ReadSoFar(total, ts, now, items, overhead, Ok)
    ensures var offer := OfferOf(items[0], overhead);
            if offer.Failure? then ReadSoFar(total, ts, now, items[1..], overhead, offer.code)
            else if offer.value.None? then ReadSoFar(total, ts, now, items[1..], overhead, Ok)
            else ReadSoFar(total, ts, Assign(now, offer.value.value), items[1..], overhead, Ok)
  {
    var offer, rest := OfferOf(items[0], overhead), ReadEntries(items[1..], overhead);
    if offer.Success? && offer.value.Some? {
      assert ([offer.value.value] + rest.offers)[1..] == rest.offers;
    }
  }

  /** The code and the path of one entry. */
  method ReadPath(item: Json, overhead: nat) returns (code: Code, path: Option<string>)
    ensures var offer := OfferOf(item, overhead);
            if offer.Failure? then code == offer.code != Ok
            else if offer.value.None? then code == Ok && path.None?
            else code == Ok && path == Some(offer.value.value.path) && offer.value.value.url == UrlOf(item)
  {
    var json := GetObjectItem(item, OBJECT_PATH_KEY);
    if json.Failure? {
      return json.code, None;
    }
    var text := GetString(json.value);
    if text.Failure? {
      return text.code, None;
    }
    var length := |text.value.GetOr("")|;
    code := Ok;
    path := if length > overhead then Some(text.value.value[overhead..]) else None;
  }

  /** Goes through the entries of a response until one cannot be read. */
  method MatchEntries(objects: seq<DataLakeObject>, items: seq<Json>, overhead: nat) returns (code: Code)
    modifies objects
    ensures var reading := ReadEntries(items, overhead);
            code == reading.code && Targets(objects) == AssignAll(old(Targets(objects)), reading.offers)
  {
    ghost var total, ts := ReadEntries(items, overhead), Targets(objects);
    ghost var rest := items;
    var index := 0;
    code := Ok;
    while index < |items| && code == Ok
      invariant 0 <= index <= |items| && rest == items[index..]
      invariant ReadSoFar(total, ts, Targets(objects), rest, overhead, code)
    {
      var item, next := items[index], index + 1;
      assert rest[0] == item && rest[1..] == items[next..];
      ReadFirst(total, ts, Targets(objects), rest, overhead);
      var path;
      code, path := ReadPath(item, overhead);
      if code == Ok && path.Some? {
        FindMatchingObject(item, objects, path.value);
      }
      index, rest := next, items[next..];
    }
    assert code == Ok ==> rest == [];
  }

  /** `response` is the parsed payload, None if there is no payload. */
  method MatchSignedUrls(objects: seq<DataLakeObject>, response: Option<Result<Json>>, clientIdLength: nat)
    returns (code: Code)
    requires response.Some? && response.value.Failure? ==> response.value.code != Ok
    modifies objects
    ensures var reading := ReadResponse(response, clientIdLength + 1);
            && Targets(objects) == AssignAll(old(Targets(objects)), reading.offers)
            && code == if reading.code != Ok then reading.code
                       else if Complete(Targets(objects)) then Ok else SignedUrlGenerationFail
  {
    var overhead := clientIdLength + 1;
    if response.None? {
      return InvalidParameter;
    }
    if response.value.Failure? {
      return response.value.code;
    }
    var urls := GetObjectItem(response.value.value, OBJECT_URLS_KEY);
    if urls.Failure? {
      return urls.code;
    }
    if !urls.value.JArray? {
      return JsonTypeMismatch;
    }
    code := MatchEntries(objects, urls.value.items, overhead);
    if code == Ok {
      code := CheckSignedUrls(objects);
    }
  }

  /** Matching starts with no URL set.  It succeeds exactly if the response can be read and offers
      enough URLs for each path; and whatever it returns, each path's objects have taken the URLs that
      were offered for it in order. */
  method ClearAndMatch(objects: seq<DataLakeObject>, response: Option<Result<Json>>, clientIdLength: nat)
    returns (code: Code)
    requires response.Some? && response.value.Failure? ==> response.value.code != Ok
    modifies objects
    ensures var reading, ts := ReadResponse(response, clientIdLength + 1), Targets(objects);
            && (code == Ok <==> reading.code == Ok && forall path :: Enough(ts, reading.offers, path))
            && (code != Ok ==> code == if reading.code != Ok then reading.code else SignedUrlGenerationFail)
            && forall path :: InOrder(ts, reading.offers, path)
    ensures forall client, listed :: IsResponse(response, client, listed, clientIdLength) ==>
              && (code == Ok <==> forall path :: EnoughListed(Targets(objects), listed, path))
              && forall path :: TakenAsListed(Targets(objects), listed, path)
  {
    ClearSignedUrls(objects);
    ghost var cleared := Targets(objects);
    ghost var reading := ReadResponse(response, clientIdLength + 1);
    code := MatchSignedUrls(objects, response, clientIdLength);
    AfterAssigning(cleared, reading.offers);
    forall client, listed | IsResponse(response, client, listed, clientIdLength)
      ensures reading == Reading(Ok, AllOffered(listed))
    {
      ResponseOffers(client, listed);
    }
    ListedMeans(Targets(objects));
  }
}
