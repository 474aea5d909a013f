/**
 * The three tables of a Firefox `places.sqlite` that the import touches
 * (`moz_origins`, `moz_places`, `moz_historyvisits`) as values, and the
 * reference definition of what finding or creating an origin, finding or
 * creating a place, and recording one visit do to them.
 *
 * Row ids come from one counter `nextId` that every insertion advances, so
 * a freshly inserted row always gets an id no existing row has.
 */
module Places {
  import opened Wrappers
  import opened Utf8
  import opened UrlHash
  import opened Origins
  import opened Guid

  /** A row of `moz_origins`. */
  datatype OriginRow = OriginRow(
    id: nat, prefix: string, host: string,
    frecency: int, recalcFrecency: bool, altFrecency: Option<int>, recalcAltFrecency: bool)

  /**
   * A row of `moz_places`, with the columns the import writes; `visitCount`
   * is filled with the column's default, 0, when the import creates the row.
   */
  datatype PlaceRow = PlaceRow(
    id: nat, url: string, title: Option<string>, revHost: string,
    visitCount: nat, lastVisitDate: Option<int>, guid: string, urlHash: bv64, originId: nat,
    recalcFrecency: bool, altFrecency: Option<int>, recalcAltFrecency: bool)

  /** A row of `moz_historyvisits`. */
  datatype VisitRow = VisitRow(
    id: nat, fromVisit: nat, placeId: nat, visitDate: int,
    visitType: nat, session: nat, source: nat, triggeringPlaceId: Option<nat>)

  /** The contents of the three tables and the next free row id. */
  datatype Tables = Tables(origins: seq<OriginRow>, places: seq<PlaceRow>, visits: seq<VisitRow>, nextId: nat)

  /**
   * Why one history entry could not be imported: the errors that `?`
   * passes up from the origin and the URL hash, and `NoHost`, the place
   * creation's `expect("URL must have a host.")`: a panic that ends the run,
   * not a reported error.
   */
  datatype ImportError = OpaqueOrigin | HashFailed(cause: HashError) | NoHost

  /** The `visit_type` of a followed link. */
  const LinkVisit: nat := 1

  // ---------------------------------------------------------------- lookups

  predicate HasKey(o: OriginRow, key: OriginKey)
  {
    o.prefix == key.prefix && o.host == key.host
  }

  /** `SELECT id FROM moz_origins WHERE host = ? AND prefix = ?`: the first matching row. */
  function FindOrigin(origins: seq<OriginRow>, key: OriginKey): (k: Option<nat>)
    ensures k.Some? ==> k.value < |origins| && HasKey(origins[k.value], key)
    ensures k.Some? ==> forall i :: 0 <= i < k.value ==> !HasKey(origins[i], key)
    ensures k.None? <==> forall i :: 0 <= i < |origins| ==> !HasKey(origins[i], key)
  {
    if |origins| == 0 then None
    else if HasKey(origins[0], key) then Some(0)
    else
      match FindOrigin(origins[1..], key)
      case None => None
      case Some(k) => Some(k + 1)
  }

  /** `SELECT id FROM moz_places WHERE url = ?`: the first matching row. */
  function FindPlace(places: seq<PlaceRow>, url: string): (k: Option<nat>)
    ensures k.Some? ==> k.value < |places| && places[k.value].url == url
    ensures k.Some? ==> forall i :: 0 <= i < k.value ==> places[i].url != url
    ensures k.None? <==> forall i :: 0 <= i < |places| ==> places[i].url != url
  {
    if |places| == 0 then None
    else if places[0].url == url then Some(0)
    else
      match FindPlace(places[1..], url)
      case None => None
      case Some(k) => Some(k + 1)
  }

  /** `SELECT EXISTS(SELECT 1 FROM moz_historyvisits WHERE visit_date = ?)`. */
  predicate HasVisitAt(visits: seq<VisitRow>, time: int)
  {
    exists i :: 0 <= i < |visits| && visits[i].visitDate == time
  }

  /** A lookup in a prefix of a table still finds what it found when the table grows. */
  lemma FindOriginAppend(origins: seq<OriginRow>, extra: seq<OriginRow>, key: OriginKey)
    requires FindOrigin(origins, key).Some?
    ensures FindOrigin(origins + extra, key) == FindOrigin(origins, key)
  {
    var k := FindOrigin(origins, key).value;
    assert (origins + extra)[k] == origins[k];
  }

  lemma FindPlaceAppend(places: seq<PlaceRow>, extra: seq<PlaceRow>, url: string)
    requires FindPlace(places, url).Some?
    ensures FindPlace(places + extra, url) == FindPlace(places, url)
  {
    var k := FindPlace(places, url).value;
    assert (places + extra)[k] == places[k];
  }

  // -------------------------------------------------------------- invariant

  function OriginIds(t: Tables): set<nat>
  {
    set i | 0 <= i < |t.origins| :: t.origins[i].id
  }

  function PlaceIds(t: Tables): set<nat>
  {
    set i | 0 <= i < |t.places| :: t.places[i].id
  }

  /**
   * What the import keeps true of the tables: ids are unique in each table
   * and below `nextId`, no two origins share a key, no two places share a
   * URL, every place names an existing origin and every visit an existing
   * place.
   */
  ghost predicate Valid(t: Tables)
  {
    && (forall i, j :: 0 <= i < j < |t.origins| ==>
          t.origins[i].id != t.origins[j].id
          && (t.origins[i].prefix != t.origins[j].prefix || t.origins[i].host != t.origins[j].host))
    && (forall i, j :: 0 <= i < j < |t.places| ==>
          t.places[i].id != t.places[j].id && t.places[i].url != t.places[j].url)
    && (forall i, j :: 0 <= i < j < |t.visits| ==> t.visits[i].id != t.visits[j].id)
    && (forall i :: 0 <= i < |t.origins| ==> t.origins[i].id < t.nextId)
    && (forall i :: 0 <= i < |t.places| ==> t.places[i].id < t.nextId)
    && (forall i :: 0 <= i < |t.visits| ==> t.visits[i].id < t.nextId)
    && (forall i :: 0 <= i < |t.places| ==> t.places[i].originId in OriginIds(t))
    && (forall i :: 0 <= i < |t.visits| ==> t.visits[i].placeId in PlaceIds(t))
  }

  /** No two visits share a timestamp: what the skip on an existing `visit_date` keeps true. */
  ghost predicate UniqueVisitDates(visits: seq<VisitRow>)
  {
    forall i, j :: 0 <= i < j < |visits| ==> visits[i].visitDate != visits[j].visitDate
  }

  // ----------------------------------------------------------------- origins

  /** The row `find_or_insert_origin` inserts for a key not yet present. */
  function NewOrigin(id: nat, key: OriginKey): OriginRow
  {
    OriginRow(id, key.prefix, key.host, 0, true, None, true)
  }

  /**
   * `find_or_insert_origin`: the id of the origin row for the URL's origin
   * key, inserting one when there is none; an opaque origin is an error.
   */
  function ResolveOrigin(t: Tables, url: Url): (Tables, Result<nat, ImportError>)
  {
    match OriginKeyOf(url)
    case None => (t, Failure(OpaqueOrigin))
    case Some(key) =>
      match FindOrigin(t.origins, key)
      case Some(k) => (t, Success(t.origins[k].id))
      case None => (t.(origins := t.origins + [NewOrigin(t.nextId, key)], nextId := t.nextId + 1), Success(t.nextId))
  }

  /**
   * An opaque origin is the only error, and changes nothing; otherwise the
   * row for the URL's key carries the returned id, and a row is appended,
   * with the next id, only when the key had none.
   */
  lemma ResolveOriginResult(t: Tables, url: Url)
    ensures var r := ResolveOrigin(t, url);
            && (r.1.Failure? <==> OriginKeyOf(url).None?)
            && (r.1.Failure? ==> r.1.error == OpaqueOrigin && r.0 == t)
            && (r.1.Success? ==>
                  var key := OriginKeyOf(url).value;
                  var k := FindOrigin(r.0.origins, key);
                  // afterwards the row for the key carries the returned id
                  && k.Some? && r.0.origins[k.value].id == r.1.value
                  // existing rows are kept, and a row is added only when the key had none
                  && |r.0.origins| == |t.origins| + (if FindOrigin(t.origins, key).None? then 1 else 0)
                  && r.0.origins[..|t.origins|] == t.origins
                  && (FindOrigin(t.origins, key).None? ==>
                        r.0.origins[|t.origins|] == NewOrigin(t.nextId, key) && r.1.value == t.nextId)
                  && r.0.places == t.places && r.0.visits == t.visits
                  && r.0.nextId == t.nextId + |r.0.origins| - |t.origins|)
  {
    var key := OriginKeyOf(url);
    if key.Some? && FindOrigin(t.origins, key.value).None? {
      var origins := t.origins + [NewOrigin(t.nextId, key.value)];
      assert origins[|t.origins|] == NewOrigin(t.nextId, key.value);
    }
  }

  /** Looking up the same origin key again finds the row just found or created and changes nothing. */
  lemma ResolveOriginTwice(t: Tables, u: Url, v: Url)
    requires OriginKeyOf(u) == OriginKeyOf(v)
    ensures var (t1, r1) := ResolveOrigin(t, u);
            ResolveOrigin(t1, v) == (t1, r1)
  {
    ResolveOriginResult(t, u);
  }

  /** Appending an origin with a fresh id and a new key keeps the tables valid. */
  lemma AppendOriginValid(t: Tables, o: OriginRow)
    requires Valid(t)
    requires o.id == t.nextId
    requires forall i :: 0 <= i < |t.origins| ==> t.origins[i].prefix != o.prefix || t.origins[i].host != o.host
    ensures Valid(t.(origins := t.origins + [o], nextId := t.nextId + 1))
  {
    var t2 := t.(origins := t.origins + [o], nextId := t.nextId + 1);
    assert PlaceIds(t2) == PlaceIds(t);
    assert OriginIds(t) <= OriginIds(t2) by {
      forall i | 0 <= i < |t.origins| ensures t.origins[i].id in OriginIds(t2) {
        assert t2.origins[i] == t.origins[i];
      }
    }
  }

  /** `find_or_insert_origin` keeps the tables valid. */
  lemma ResolveOriginValid(t: Tables, url: Url)
    requires Valid(t)
    ensures Valid(ResolveOrigin(t, url).0)
  {
    var key := OriginKeyOf(url);
    if key.Some? && FindOrigin(t.origins, key.value).None? {
      AppendOriginValid(t, NewOrigin(t.nextId, key.value));
    }
  }

  // ------------------------------------------------------------------ places

  /** The characters of `s` in reverse order. */
  function Reverse(s: string): (r: string)
    ensures |r| == |s|
    ensures forall i :: 0 <= i < |s| ==> r[i] == s[|s| - 1 - i]
  {
    if |s| == 0 then [] else Reverse(s[1..]) + [s[0]]
  }

  /** Reversing twice gives the text back. */
  lemma ReverseReverse(s: string)
    ensures Reverse(Reverse(s)) == s
  {
  }

  /** `rev_host`: the host's characters in reverse order followed by '.'. */
  function RevHost(host: string): (r: string)
    ensures |r| == |host| + 1 && r[|host|] == '.'
    ensures forall i :: 0 <= i < |host| ==> r[i] == host[|host| - 1 - i]
  {
    Reverse(host) + "."
  }

  /** The host is read back from its `rev_host`, so different hosts have different ones. */
  lemma RevHostInverse(host: string)
    ensures Reverse(RevHost(host)[..|host|]) == host
  {
    assert RevHost(host)[..|host|] == Reverse(host);
    ReverseReverse(host);
  }

  /** The row `find_or_insert_place` inserts for a URL not yet present. */
  function NewPlace(id: nat, url: Url, title: Option<string>, guid: string, urlHash: bv64, originId: nat): PlaceRow
    requires url.host.Some?
  {
    PlaceRow(id, url.serialized, title, RevHost(url.host.value), 0, None, guid, urlHash, originId, true, Some(0), true)
  }

  /**
   * `find_or_insert_place`: the id of the place whose URL is `url`; when
   * there is none, a new place with the given title, the freshly generated
   * `guid`, the URL's hash and its origin's id. Creating one checks, in
   * this order, that the URL has a host (a panic otherwise), that its text
   * has a protocol, and that its origin is not opaque.
   */
  function ResolvePlace(t: Tables, url: Url, title: Option<string>, guid: string): (Tables, Result<nat, ImportError>)
  {
    match FindPlace(t.places, url.serialized)
    case Some(k) => (t, Success(t.places[k].id))
    case None =>
      if url.host.None? then (t, Failure(NoHost))
      else
        match Hash(Utf8Bytes(url.serialized))
        case Failure(e) => (t, Failure(HashFailed(e)))
        case Success(urlHash) =>
          var (t1, o) := ResolveOrigin(t, url);
          match o
          case Failure(e) => (t, Failure(e))
          case Success(originId) =>
            (t1.(places := t1.places + [NewPlace(t1.nextId, url, title, guid, urlHash, originId)], nextId := t1.nextId + 1),
             Success(t1.nextId))
  }

  /**
   * A known URL gives its place's id and changes nothing; a failure changes
   * nothing; after a success the place for the URL carries the returned id.
   */
  lemma ResolvePlaceResult(t: Tables, url: Url, title: Option<string>, guid: string)
    ensures var r := ResolvePlace(t, url, title, guid);
            && (FindPlace(t.places, url.serialized).Some? ==>
                  r == (t, Success(t.places[FindPlace(t.places, url.serialized).value].id)))
            && (r.1.Failure? ==> r.0 == t)
            && (r.1.Success? ==>
                  var k := FindPlace(r.0.places, url.serialized);
                  k.Some? && r.0.places[k.value].id == r.1.value)
  {
    ResolveOriginResult(t, url);
    var (t2, r) := ResolvePlace(t, url, title, guid);
    if r.Success? && FindPlace(t.places, url.serialized).None? {
      assert t2.places[|t.places|].url == url.serialized;
    }
  }

  /** A URL for which creating a place fails: no host, no protocol, or an opaque origin. */
  predicate CreationFails(url: Url)
  {
    url.host.None? || ':' !in url.serialized || url.opaqueOrigin
  }

  /**
   * The errors of place creation, checked in this order: no host (the
   * panic), no protocol in the URL text, an opaque origin.
   */
  lemma ResolvePlaceErrors(t: Tables, url: Url, title: Option<string>, guid: string)
    requires FindPlace(t.places, url.serialized).None?
    ensures var r := ResolvePlace(t, url, title, guid).1;
            && (r == Failure(NoHost) <==> url.host.None?)
            && (url.host.Some? ==> (r == Failure(HashFailed(MissingProtocol)) <==> ':' !in url.serialized))
            && (url.host.Some? && ':' in url.serialized ==> (r == Failure(OpaqueOrigin) <==> url.opaqueOrigin))
            && (r.Failure? <==> CreationFails(url))
  {
    HashFailsWithoutProtocol(url.serialized);
  }

  /**
   * A place created for a new URL is appended with a fresh id: title as
   * given, `rev_host` of the URL's host, no visits yet, the generated
   * GUID, the hash of the URL's text, and the id of the origin row for
   * the URL's origin key.
   */
  lemma ResolvePlaceCreates(t: Tables, url: Url, title: Option<string>, guid: string)
    requires FindPlace(t.places, url.serialized).None?
    ensures var (t2, r) := ResolvePlace(t, url, title, guid);
            r.Success? ==>
              && url.host.Some? && OriginKeyOf(url).Some?
              && |t2.places| == |t.places| + 1
              && t2.places[..|t.places|] == t.places
              && t2.visits == t.visits
              && t2.origins[..|t.origins|] == t.origins
              && r.value == t2.nextId - 1
              && t.nextId <= r.value
              && var p := t2.places[|t.places|];
                 var o := FindOrigin(t2.origins, OriginKeyOf(url).value);
                 && p.id == r.value && p.url == url.serialized
                 && p.title == title && p.revHost == RevHost(url.host.value)
                 && p.visitCount == 0 && p.lastVisitDate.None?
                 && p.guid == guid
                 && Hash(Utf8Bytes(url.serialized)) == Success(p.urlHash)
                 && o.Some? && p.originId == t2.origins[o.value].id
                 && p.recalcFrecency && p.altFrecency == Some(0) && p.recalcAltFrecency
  {
    ResolveOriginResult(t, url);
    var (t2, r) := ResolvePlace(t, url, title, guid);
    if r.Success? {
      var (t1, o) := ResolveOrigin(t, url);
      assert t2.origins == t1.origins;
    }
  }

  /** Looking up the same URL again finds the place just found or created and changes nothing. */
  lemma ResolvePlaceTwice(t: Tables, url: Url, title: Option<string>, guid: string, title2: Option<string>, guid2: string)
    ensures var (t1, r1) := ResolvePlace(t, url, title, guid);
            r1.Success? ==> ResolvePlace(t1, url, title2, guid2) == (t1, r1)
  {
    ResolvePlaceResult(t, url, title, guid);
  }

  /** Appending a place with a fresh id, a new URL and an existing origin keeps the tables valid. */
  lemma AppendPlaceValid(t: Tables, p: PlaceRow)
    requires Valid(t)
    requires p.id == t.nextId && p.originId in OriginIds(t)
    requires forall i :: 0 <= i < |t.places| ==> t.places[i].url != p.url
    ensures Valid(t.(places := t.places + [p], nextId := t.nextId + 1))
  {
    var t2 := t.(places := t.places + [p], nextId := t.nextId + 1);
    assert OriginIds(t2) == OriginIds(t);
    assert PlaceIds(t) <= PlaceIds(t2) by {
      forall i | 0 <= i < |t.places| ensures t.places[i].id in PlaceIds(t2) {
        assert t2.places[i] == t.places[i];
      }
    }
  }

  lemma ResolvePlaceValid(t: Tables, url: Url, title: Option<string>, guid: string)
    requires Valid(t)
    ensures Valid(ResolvePlace(t, url, title, guid).0)
  {
    var (t2, r) := ResolvePlace(t, url, title, guid);
    if r.Success? && FindPlace(t.places, url.serialized).None? {
      var h := Hash(Utf8Bytes(url.serialized));
      assert h.Success?;
      var (t1, o) := ResolveOrigin(t, url);
      ResolveOriginResult(t, url);
      ResolveOriginValid(t, url);
      var k := FindOrigin(t1.origins, OriginKeyOf(url).value).value;
      assert o.value in OriginIds(t1);
      var p := NewPlace(t1.nextId, url, title, guid, h.value, o.value);
      AppendPlaceValid(t1, p);
      assert t2 == t1.(places := t1.places + [p], nextId := t1.nextId + 1);
    }
  }

  // ------------------------------------------------------------------ visits

  function Max(a: int, b: int): int
  {
    if a < b then b else a
  }

  /** `ifnull(last_visit_date, 0)`. */
  function LastVisitOrZero(p: PlaceRow): int
  {
    match p.lastVisitDate
    case None => 0
    case Some(d) => d
  }

  /**
   * A place row after the visit update: one more visit, the later of the
   * last visit (0 when there is none) and `time` as the last visit, and
   * frecency to be recalculated.
   */
  function Visited(p: PlaceRow, time: int): PlaceRow
  {
    p.(visitCount := p.visitCount + 1, lastVisitDate := Some(Max(LastVisitOrZero(p), time)), recalcFrecency := true)
  }

  /**
   * `UPDATE moz_places SET ... WHERE id = ?`: every row with the id gets one
   * more visit, the later of its last visit (0 when there is none) and
   * `time` as last visit, and `recalc_frecency` set, its other columns
   * kept; every other row is kept.
   */
  function MarkVisited(places: seq<PlaceRow>, id: nat, time: int): (r: seq<PlaceRow>)
    ensures |r| == |places|
    ensures forall i :: 0 <= i < |places| && places[i].id != id ==> r[i] == places[i]
    ensures forall i :: 0 <= i < |places| && places[i].id == id ==>
              && r[i].visitCount == places[i].visitCount + 1
              && r[i].lastVisitDate == Some(Max(LastVisitOrZero(places[i]), time))
              && r[i].recalcFrecency
              && r[i] == places[i].(visitCount := r[i].visitCount, lastVisitDate := r[i].lastVisitDate, recalcFrecency := true)
  {
    seq(|places|, i requires 0 <= i < |places| => if places[i].id == id then Visited(places[i], time) else places[i])
  }

  /** The visit row `insert_visit` adds: from no visit, a link visit, no session, source or trigger. */
  function NewVisit(id: nat, placeId: nat, time: int): VisitRow
  {
    VisitRow(id, 0, placeId, time, LinkVisit, 0, 0, None)
  }

  /** The visit update and the new visit row for the place `placeId`. */
  function VisitPlace(t: Tables, placeId: nat, time: int): Tables
  {
    Tables(t.origins, MarkVisited(t.places, placeId, time), t.visits + [NewVisit(t.nextId, placeId, time)], t.nextId + 1)
  }

  /** Two tables whose rows have the same URLs, in the same order, find a URL at the same index. */
  lemma FindPlaceSameUrls(a: seq<PlaceRow>, b: seq<PlaceRow>, url: string)
    requires |a| == |b| && forall i :: 0 <= i < |a| ==> a[i].url == b[i].url
    ensures FindPlace(a, url) == FindPlace(b, url)
  {
  }

  /**
   * `insert_visit`: record a visit to `url` at `time`. A visit at that time
   * already there means the entry is skipped; otherwise the URL's place is
   * found or created, its visit count and last visit date are updated, and a
   * visit row is added.
   */
  function RecordVisit(t: Tables, url: Url, title: Option<string>, time: nat, guid: string): (Tables, Result<(), ImportError>)
  {
    if HasVisitAt(t.visits, time) then (t, Success(()))
    else
      var (t1, p) := ResolvePlace(t, url, title, guid);
      match p
      case Failure(e) => (t, Failure(e))
      case Success(placeId) => (VisitPlace(t1, placeId, time), Success(()))
  }

  /**
   * A visit at the same time already there: skipped, nothing changes. An
   * error finding or creating the place changes nothing. Otherwise one
   * visit row is appended, at `time`, to the place of the URL, with a fresh id.
   */
  lemma RecordVisitResult(t: Tables, url: Url, title: Option<string>, time: nat, guid: string)
    ensures var r := RecordVisit(t, url, title, time, guid);
            && (HasVisitAt(t.visits, time) ==> r == (t, Success(())))
            && (r.1.Failure? ==> r.0 == t && ResolvePlace(t, url, title, guid).1 == Failure(r.1.error))
            // afterwards there is a visit at that time
            && (r.1.Success? ==> HasVisitAt(r.0.visits, time))
            && (r.1.Success? && !HasVisitAt(t.visits, time) ==>
                  && |r.0.visits| == |t.visits| + 1
                  && r.0.visits[..|t.visits|] == t.visits
                  && var v := r.0.visits[|t.visits|];
                     var k := FindPlace(r.0.places, url.serialized);
                     && k.Some? && v.placeId == r.0.places[k.value].id
                     && v.visitDate == time && v.fromVisit == 0 && v.visitType == LinkVisit
                     && v.session == 0 && v.source == 0 && v.triggeringPlaceId.None?
                     && t.nextId <= v.id && v.id + 1 == r.0.nextId)
  {
    if !HasVisitAt(t.visits, time) {
      ResolvePlaceResult(t, url, title, guid);
      var (t1, p) := ResolvePlace(t, url, title, guid);
      if p.Success? {
        var t2 := VisitPlace(t1, p.value, time);
        FindPlaceSameUrls(t1.places, t2.places, url.serialized);
        assert t2.visits[|t.visits|].visitDate == time;
      }
    }
  }

  /** The update of a place's visit columns keeps every id, URL and origin, and so keeps the tables valid. */
  lemma MarkVisitedValid(t: Tables, id: nat, time: int)
    requires Valid(t)
    ensures Valid(Tables(t.origins, MarkVisited(t.places, id, time), t.visits, t.nextId))
    ensures PlaceIds(Tables(t.origins, MarkVisited(t.places, id, time), t.visits, t.nextId)) == PlaceIds(t)
  {
    var t2 := Tables(t.origins, MarkVisited(t.places, id, time), t.visits, t.nextId);
    assert forall i :: 0 <= i < |t.places| ==> t2.places[i].id == t.places[i].id;
    assert PlaceIds(t2) == PlaceIds(t);
  }

  /** Recording a visit to an existing place keeps the tables valid. */
  lemma VisitPlaceValid(t: Tables, placeId: nat, time: int)
    requires Valid(t) && placeId in PlaceIds(t)
    ensures Valid(VisitPlace(t, placeId, time))
  {
    MarkVisitedValid(t, placeId, time);
    AppendVisitValid(Tables(t.origins, MarkVisited(t.places, placeId, time), t.visits, t.nextId), NewVisit(t.nextId, placeId, time));
  }

  /** Appending a visit with a fresh id to an existing place keeps the tables valid. */
  lemma AppendVisitValid(t: Tables, v: VisitRow)
    requires Valid(t)
    requires v.id == t.nextId && v.placeId in PlaceIds(t)
    ensures Valid(Tables(t.origins, t.places, t.visits + [v], t.nextId + 1))
  {
    var t2 := Tables(t.origins, t.places, t.visits + [v], t.nextId + 1);
    assert OriginIds(t2) == OriginIds(t) && PlaceIds(t2) == PlaceIds(t);
  }

  /** `insert_visit` keeps the tables valid. */
  lemma RecordVisitValid(t: Tables, url: Url, title: Option<string>, time: nat, guid: string)
    requires Valid(t)
    ensures Valid(RecordVisit(t, url, title, time, guid).0)
  {
    if !HasVisitAt(t.visits, time) {
      var (t1, p) := ResolvePlace(t, url, title, guid);
      if p.Success? {
        ResolvePlaceResult(t, url, title, guid);
        ResolvePlaceValid(t, url, title, guid);
        var k := FindPlace(t1.places, url.serialized).value;
        assert p.value in PlaceIds(t1);
        VisitPlaceValid(t1, p.value, time);
      }
    }
  }

  /** `insert_visit` never adds a second visit at a time already recorded. */
  lemma RecordVisitUniqueDates(t: Tables, url: Url, title: Option<string>, time: nat, guid: string)
    requires UniqueVisitDates(t.visits)
    ensures UniqueVisitDates(RecordVisit(t, url, title, time, guid).0.visits)
  {
    var (t2, r) := RecordVisit(t, url, title, time, guid);
    if r.Success? && !HasVisitAt(t.visits, time) {
      assert t2.visits == t.visits + [t2.visits[|t.visits|]];
    }
  }

  /** A recorded visit is the visit update and new visit row for the place found or created. */
  lemma RecordVisitUnfold(t: Tables, url: Url, title: Option<string>, time: nat, guid: string)
    requires !HasVisitAt(t.visits, time)
    ensures var (t1, p) := ResolvePlace(t, url, title, guid);
            p.Success? ==> RecordVisit(t, url, title, time, guid) == (VisitPlace(t1, p.value, time), Success(()))
  {
  }

  /** The visit update keeps every row's id, URL and origin, and never lowers a visit count or last visit date. */
  lemma MarkVisitedGrows(places: seq<PlaceRow>, id: nat, time: int)
    ensures var r := MarkVisited(places, id, time);
            forall i :: 0 <= i < |places| ==>
              && r[i].id == places[i].id && r[i].url == places[i].url && r[i].originId == places[i].originId
              && r[i].visitCount >= places[i].visitCount
              && LastVisitOrZero(r[i]) >= LastVisitOrZero(places[i])
  {
  }

  /** With ids unique, the visit update changes exactly the row with the id. */
  lemma MarkVisitedOnly(places: seq<PlaceRow>, k: nat, time: int)
    requires k < |places|
    requires forall i :: 0 <= i < |places| && i != k ==> places[i].id != places[k].id
    ensures var r := MarkVisited(places, places[k].id, time);
            && r[k] == Visited(places[k], time)
            && forall i :: 0 <= i < |places| && i != k ==> r[i] == places[i]
  {
  }

  /**
   * `insert_visit` only adds rows: every existing place keeps its id, URL
   * and origin and its visit count and last visit date never go down;
   * visits and origins are appended to; and a new place is for the
   * visited URL, one for which creation does not fail.
   */
  lemma RecordVisitGrows(t: Tables, url: Url, title: Option<string>, time: nat, guid: string)
    ensures var t2 := RecordVisit(t, url, title, time, guid).0;
            && |t.places| <= |t2.places| <= |t.places| + 1
            && (forall i :: 0 <= i < |t.places| ==>
                  && t2.places[i].id == t.places[i].id && t2.places[i].url == t.places[i].url
                  && t2.places[i].originId == t.places[i].originId
                  && t2.places[i].visitCount >= t.places[i].visitCount
                  && LastVisitOrZero(t2.places[i]) >= LastVisitOrZero(t.places[i]))
            && (|t2.places| > |t.places| ==> t2.places[|t.places|].url == url.serialized && !CreationFails(url))
            && |t.visits| <= |t2.visits| && t2.visits[..|t.visits|] == t.visits
            && |t.origins| <= |t2.origins| && t2.origins[..|t.origins|] == t.origins
            && t.nextId <= t2.nextId
  {
    if !HasVisitAt(t.visits, time) {
      var (t1, p) := ResolvePlace(t, url, title, guid);
      if p.Success? {
        RecordVisitUnfold(t, url, title, time, guid);
        MarkVisitedGrows(t1.places, p.value, time);
        if FindPlace(t.places, url.serialized).None? {
          ResolvePlaceCreates(t, url, title, guid);
          ResolvePlaceErrors(t, url, title, guid);
          forall i | 0 <= i < |t.places| ensures t1.places[i] == t.places[i] {
            assert t1.places[..|t.places|][i] == t.places[i];
          }
        }
      }
    }
  }

  /**
   * A visit to a URL that has a place: the visit is recorded on that place,
   * which gets one more visit and the later of its last visit date and
   * `time` as last visit date; no other place changes.
   */
  lemma RecordVisitKnownPlace(t: Tables, url: Url, title: Option<string>, time: nat, guid: string)
    requires Valid(t) && !HasVisitAt(t.visits, time)
    requires FindPlace(t.places, url.serialized).Some?
    ensures var (t2, r) := RecordVisit(t, url, title, time, guid);
            var k := FindPlace(t.places, url.serialized).value;
            && r.Success?
            && |t2.places| == |t.places| && FindPlace(t2.places, url.serialized) == Some(k)
            && t2.places[k].visitCount == t.places[k].visitCount + 1
            && t2.places[k].lastVisitDate == Some(Max(LastVisitOrZero(t.places[k]), time))
            && t2.places[k].title == t.places[k].title
            && (forall i :: 0 <= i < |t.places| && i != k ==> t2.places[i] == t.places[i])
  {
    var k := FindPlace(t.places, url.serialized).value;
    RecordVisitUnfold(t, url, title, time, guid);
    MarkVisitedOnly(t.places, k, time);
    FindPlaceSameUrls(t.places, MarkVisited(t.places, t.places[k].id, time), url.serialized);
  }

  /**
   * A visit to a URL without a place: it succeeds exactly when the place can
   * be created, and then the new place is the last one, with the entry's
   * title, one visit, at `time`; no other place changes.
   */
  lemma RecordVisitNewPlace(t: Tables, url: Url, title: Option<string>, time: nat, guid: string)
    requires Valid(t) && !HasVisitAt(t.visits, time)
    requires FindPlace(t.places, url.serialized).None?
    ensures var (t2, r) := RecordVisit(t, url, title, time, guid);
            && (r.Success? <==> !CreationFails(url))
            && (r.Success? ==>
                  && |t2.places| == |t.places| + 1
                  && FindPlace(t2.places, url.serialized) == Some(|t.places|)
                  && t2.places[|t.places|].visitCount == 1
                  && t2.places[|t.places|].lastVisitDate == Some(time)
                  && t2.places[|t.places|].title == title
                  && (forall i :: 0 <= i < |t.places| ==> t2.places[i] == t.places[i]))
  {
    ResolvePlaceErrors(t, url, title, guid);
    var (t1, p) := ResolvePlace(t, url, title, guid);
    if p.Success? {
      ResolvePlaceCreates(t, url, title, guid);
      RecordVisitUnfold(t, url, title, time, guid);
      NewPlaceVisited(t, t1, p.value, url.serialized, time);
    }
  }

  /** The visit update of a place just appended with a fresh id changes that place alone. */
  lemma NewPlaceVisited(t: Tables, t1: Tables, placeId: nat, url: string, time: nat)
    requires Valid(t)
    requires |t1.places| == |t.places| + 1 && t1.places[..|t.places|] == t.places
    requires t1.places[|t.places|].id == placeId && t.nextId <= placeId
    requires t1.places[|t.places|].url == url && FindPlace(t.places, url).None?
    requires t1.places[|t.places|].visitCount == 0 && t1.places[|t.places|].lastVisitDate.None?
    ensures var t2 := VisitPlace(t1, placeId, time);
            && FindPlace(t2.places, url) == Some(|t.places|)
            && t2.places[|t.places|].visitCount == 1
            && t2.places[|t.places|].lastVisitDate == Some(time)
            && t2.places[|t.places|].title == t1.places[|t.places|].title
            && (forall i :: 0 <= i < |t.places| ==> t2.places[i] == t.places[i])
  {
    var k := |t.places|;
    forall i | 0 <= i < |t.places| ensures t1.places[i] == t.places[i] {
      assert t1.places[..|t.places|][i] == t.places[i];
    }
    forall i | 0 <= i < |t1.places| && i != k ensures t1.places[i].id != t1.places[k].id {
      assert t.places[i].id < t.nextId;
    }
    MarkVisitedOnly(t1.places, k, time);
    var places := MarkVisited(t1.places, placeId, time);
    FindPlaceSameUrls(t1.places, places, url);
  }

  /** Once a visit at `time` is recorded, every later entry at that time is skipped. */
  lemma RecordedTimeSkips(t: Tables, url: Url, title: Option<string>, time: nat, guid: string,
                          url2: Url, title2: Option<string>, guid2: string)
    ensures var (t1, r1) := RecordVisit(t, url, title, time, guid);
            r1.Success? ==> RecordVisit(t1, url2, title2, time, guid2) == (t1, Success(()))
  {
    RecordVisitResult(t, url, title, time, guid);
  }

  /**
   * Two visits to the same URL at different new times: both are recorded
   * on one place, whose visit count goes up by two and whose last visit
   * date is the latest of the three dates.
   */
  lemma TwoVisitsOnePlace(t: Tables, url: Url, title: Option<string>, time1: nat, time2: nat, guid1: string, guid2: string)
    requires Valid(t) && time1 != time2 && !HasVisitAt(t.visits, time1) && !HasVisitAt(t.visits, time2)
    requires FindPlace(t.places, url.serialized).Some?
    ensures var (t1, r1) := RecordVisit(t, url, title, time1, guid1);
            var (t2, r2) := RecordVisit(t1, url, title, time2, guid2);
            var k := FindPlace(t.places, url.serialized).value;
            && r1.Success? && r2.Success?
            && |t2.visits| == |t.visits| + 2
            && FindPlace(t2.places, url.serialized) == Some(k)
            && t2.places[k].visitCount == t.places[k].visitCount + 2
            && t2.places[k].lastVisitDate == Some(Max(Max(LastVisitOrZero(t.places[k]), time1), time2))
  {
    var (t1, r1) := RecordVisit(t, url, title, time1, guid1);
    RecordVisitKnownPlace(t, url, title, time1, guid1);
    RecordVisitValid(t, url, title, time1, guid1);
    assert !HasVisitAt(t1.visits, time2) by {
      assert t1.visits == t.visits + [t1.visits[|t.visits|]];
    }
    RecordVisitKnownPlace(t1, url, title, time2, guid2);
  }
}
