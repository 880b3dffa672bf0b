/**
 * The in-memory album store of the web service (web-service-gin/main.go).
 *
 * The service keeps a package-level slice of album records, seeded with three
 * entries, and three handlers work on it: list all, look one up by ID (a
 * first-match linear scan with a 404 "album not found" outcome), and create
 * (append, without any check for a duplicate ID; nothing happens when the
 * request body cannot be decoded). Here the slice is owned by an AlbumStore
 * object and each handler is a method; the HTTP routing and the JSON
 * encoding and decoding are not modelled, only the status code and the body
 * each handler would send.
 */
module Albums {
  import opened Wrappers

  /** Go's float64 price. Nothing computes with it, so an exact real stands for it. */
  type Price = real

  /** One record album. */
  datatype Album = Album(id: string, title: string, artist: string, price: Price)

  /** HTTP status codes the handlers send (net/http). */
  const StatusOK: int := 200
  const StatusCreated: int := 201
  const StatusNotFound: int := 404

  const NotFoundMessage: string := "album not found"

  /** What a handler puts in the response body. */
  datatype Body =
    | AlbumList(albums: seq<Album>)
    | OneAlbum(album: Album)
    | Message(message: string)

  /** A response: status code and body. */
  datatype Response = Response(status: int, body: Body)

  /** The three albums the service starts with. */
  function Seed(): seq<Album>
  {
    [
      Album("1", "Blue Train", "John Coltrane", 56.99),
      Album("2", "Jeru", "Gerry Mulligan", 17.99),
      Album("3", "Sarah Vaughan and Clifford Brown", "Sarah Vaughan", 39.99)
    ]
  }

  /** The seed has exactly three albums, with IDs "1", "2", "3" in that order. */
  lemma SeedIds()
    ensures |Seed()| == 3
    ensures Seed()[0].id == "1" && Seed()[1].id == "2" && Seed()[2].id == "3"
  {
  }

  /** The position of the first album whose ID is id, if any. */
  function FindFirst(s: seq<Album>, id: string): (r: Option<nat>)
    ensures r.None? <==> forall j :: 0 <= j < |s| ==> s[j].id != id
    ensures r.Some? ==> r.value < |s| && s[r.value].id == id
    ensures r.Some? ==> forall j :: 0 <= j < r.value ==> s[j].id != id
  {
    if s == [] then None
    else if s[0].id == id then Some(0)
    else
      match FindFirst(s[1..], id)
      case None => None
      case Some(i) => Some(i + 1)
  }

  /**
   * The response getAlbumByID sends for id when the store holds s: 404 with
   * "album not found" exactly when no album has that ID, otherwise 200 with the
   * first album in order that has it.
   */
  function ByID(s: seq<Album>, id: string): (r: Response)
    ensures r.status == StatusNotFound <==> forall j :: 0 <= j < |s| ==> s[j].id != id
    ensures r.status == StatusNotFound ==> r.body == Message(NotFoundMessage)
    ensures r.status != StatusNotFound ==>
      && r.status == StatusOK
      && exists i :: 0 <= i < |s| && s[i].id == id && r.body == OneAlbum(s[i])
                     && forall j :: 0 <= j < i ==> s[j].id != id
  {
    match FindFirst(s, id)
    case Some(i) => Response(StatusOK, OneAlbum(s[i]))
    case None => Response(StatusNotFound, Message(NotFoundMessage))
  }

  /** Appending never changes the answer for an ID that was already present: the earlier record still wins. */
  lemma {:induction false} ByIDAppendPresent(s: seq<Album>, a: Album, id: string)
    requires exists j :: 0 <= j < |s| && s[j].id == id
    ensures ByID(s + [a], id) == ByID(s, id)
  {
    var i := FindFirst(s, id).value;
    assert (s + [a])[i] == s[i];
    assert forall j :: 0 <= j < i ==> (s + [a])[j] == s[j];
    assert FindFirst(s + [a], id) == Some(i);
  }

  /** An appended album is found by its ID when no earlier album carries that ID. */
  lemma {:induction false} ByIDAppendFresh(s: seq<Album>, a: Album)
    requires forall j :: 0 <= j < |s| ==> s[j].id != a.id
    ensures ByID(s + [a], a.id) == Response(StatusOK, OneAlbum(a))
  {
    assert forall j :: 0 <= j < |s| ==> (s + [a])[j] == s[j];
    assert (s + [a])[|s|] == a;
    assert FindFirst(s + [a], a.id) == Some(|s|);
  }

  /** On the seed, ID "2" finds Jeru by Gerry Mulligan and ID "99" is not found. */
  lemma SeedLookups()
    ensures ByID(Seed(), "2") == Response(StatusOK, OneAlbum(Seed()[1]))
    ensures ByID(Seed(), "2").body.album.artist == "Gerry Mulligan"
    ensures ByID(Seed(), "99") == Response(StatusNotFound, Message("album not found"))
  {
    assert Seed()[0].id != "2" && Seed()[1].id == "2";
    assert FindFirst(Seed(), "2") == Some(1);
    assert forall j :: 0 <= j < |Seed()| ==> Seed()[j].id != "99";
  }

  /** The service's album collection, owned by one object instead of a package-level slice. */
  class AlbumStore {
    var albums: seq<Album>

    /** Starts with the three seed albums. */
    constructor ()
      ensures albums == Seed()
    {
      albums := Seed();
    }

    /** getAlbums: 200 with every album, in order; the collection is not changed. */
    method List() returns (r: Response)
      ensures r.status == StatusOK
      ensures r.body.AlbumList? && r.body.albums == albums
    {
      r := Response(StatusOK, AlbumList(albums));
    }

    /** getAlbumByID: scans the albums in order and answers with the first whose ID matches. */
    method GetByID(id: string) returns (r: Response)
      ensures r == ByID(albums, id)
      ensures r.status == StatusNotFound <==> forall j :: 0 <= j < |albums| ==> albums[j].id != id
      ensures r.status == StatusNotFound ==> r.body == Message(NotFoundMessage)
      ensures r.status != StatusNotFound ==>
        && r.status == StatusOK
        && exists i :: 0 <= i < |albums| && albums[i].id == id && r.body == OneAlbum(albums[i])
                       && forall j :: 0 <= j < i ==> albums[j].id != id
    {
      var i := 0;
      while i < |albums|
        invariant 0 <= i <= |albums|
        invariant forall j :: 0 <= j < i ==> albums[j].id != id
      {
        if albums[i].id == id {
          r := Response(StatusOK, OneAlbum(albums[i]));
          assert FindFirst(albums, id) == Some(i);
          return;
        }
        i := i + 1;
      }
      r := Response(StatusNotFound, Message(NotFoundMessage));
    }

    /**
     * postAlbums: `decoded` is the body as decoded from JSON, None when decoding
     * failed. On failure nothing is sent and nothing changes; otherwise the album
     * is appended, without a duplicate check, and sent back with 201.
     */
    method Post(decoded: Option<Album>) returns (r: Option<Response>)
      modifies this
      ensures decoded.None? ==> r.None? && albums == old(albums)
      ensures decoded.Some? ==>
        && albums == old(albums) + [decoded.value]
        && r == Some(Response(StatusCreated, OneAlbum(decoded.value)))
      ensures |albums| == |old(albums)| + (if decoded.Some? then 1 else 0)
      ensures albums[..|old(albums)|] == old(albums)
    {
      if decoded.None? {
        return None;
      }
      albums := albums + [decoded.value];
      r := Some(Response(StatusCreated, OneAlbum(decoded.value)));
    }
  }

  /**
   * A session against a fresh store: posting an album makes the list one longer,
   * and looking its ID up afterwards gives the earlier record when the ID was
   * already taken, and the new one otherwise.
   */
  method PostThenGet(a: Album) returns (before: nat, after: nat, found: Response)
    ensures after == before + 1
    ensures found.status == StatusOK
    ensures a.id in {"1", "2", "3"} ==> found == ByID(Seed(), a.id) && found.body.album in Seed()
    ensures a.id !in {"1", "2", "3"} ==> found == Response(StatusOK, OneAlbum(a))
  {
    var store := new AlbumStore();
    var listed := store.List();
    before := |listed.body.albums|;
    var posted := store.Post(Some(a));
    listed := store.List();
    after := |listed.body.albums|;
    found := store.GetByID(a.id);
    if a.id in {"1", "2", "3"} {
      var j := if a.id == "1" then 0 else if a.id == "2" then 1 else 2;
      assert Seed()[j].id == a.id;
      ByIDAppendPresent(Seed(), a, a.id);
    } else {
      ByIDAppendFresh(Seed(), a);
    }
  }
}
