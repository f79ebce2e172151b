/** The controller's in-memory video registry as a value: the map from
    identifier to video record and the counter that mints identifiers, with
    the state change each request makes. The class in module VideoService
    performs these changes in place and is proved against these functions. */
module VideoRegistry {
  import opened Decimal
  import opened DataUrls

  /** A video's metadata. Title and duration stand for the descriptive fields,
      which the controller passes through unchanged; `id` and `dataUrl` are the
      two fields it sets. */
  datatype Video = Video(id: int, title: string, duration: int, dataUrl: string)

  datatype VideoState = Ready | Processing

  datatype VideoStatus = VideoStatus(state: VideoState)

  /** Why a request is rejected: an identifier the registry does not hold
      (ResourceNotFoundException), or an I/O failure reported by the file
      manager (IOException). */
  datatype Failure = ResourceNotFound | IoFailure

  datatype Result<T> = Ok(value: T) | Err(error: Failure)

  /** How a call into the video file manager ended. */
  datatype IoOutcome = Completed | IoException

  /** A call the controller hands to the video file manager. */
  datatype StorageRequest =
    | SaveVideoData(video: Video, data: seq<bv8>)
    | CopyVideoData(video: Video)

  /** The data a request to register a video carries: the record from the
      request body, and the server name and port the request reached. */
  datatype CreateRequest = CreateRequest(video: Video, serverName: string, serverPort: int)

  datatype Registry = Registry(videos: map<int, Video>, counter: nat)

  /** The registry when the controller is constructed. */
  const Empty := Registry(map[], 0)

  /** Every key lies between 1 and the counter, the record stored under a key
      carries that key as its identifier, and its data URL names that key. */
  predicate Inv(r: Registry) {
    forall k :: k in r.videos ==>
      1 <= k <= r.counter && r.videos[k].id == k && DataUrlId(r.videos[k].dataUrl) == Some(k)
  }

  /** The identifier the next registration receives (counter.incrementAndGet). */
  function NextId(r: Registry): int {
    r.counter + 1
  }

  /** The record after setId(id) and setDataUrl(getDataUrl(id)). */
  function Stamp(v: Video, id: int, serverName: string, serverPort: int): Video {
    v.(id := id, dataUrl := DataUrl(serverName, serverPort, id))
  }

  /** The record addVideo returns. */
  function Added(r: Registry, q: CreateRequest): Video {
    Stamp(q.video, NextId(r), q.serverName, q.serverPort)
  }

  /** The registry after addVideo. */
  function Add(r: Registry, q: CreateRequest): Registry {
    Registry(r.videos[NextId(r) := Added(r, q)], NextId(r))
  }

  /** What handleFileUpload answers, given how the file manager's save ended. */
  function Upload(r: Registry, id: int, saved: IoOutcome): Result<VideoStatus> {
    if id !in r.videos then Err(ResourceNotFound)
    else if saved == Completed then Ok(VideoStatus(Ready))
    else Err(IoFailure)
  }

  /** What streamFile answers, given how the file manager's copy ended. */
  function Stream(r: Registry, id: int, copied: IoOutcome): Result<()> {
    if id !in r.videos then Err(ResourceNotFound)
    else if copied == Completed then Ok(())
    else Err(IoFailure)
  }

  /** The registry and the returned records after registering `qs` in order. */
  function CreateAll(r: Registry, qs: seq<CreateRequest>): (Registry, seq<Video>)
    decreases |qs|
  {
    if qs == [] then (r, [])
    else
      var rest := CreateAll(Add(r, qs[0]), qs[1..]);
      (rest.0, [Added(r, qs[0])] + rest.1)
  }

  /** addVideo keeps the invariant, uses a key not yet present, adds exactly
      that key, leaves every other entry alone, and moves the counter onto the
      new identifier. */
  lemma AddSound(r: Registry, q: CreateRequest)
    requires Inv(r)
    ensures var r' := Add(r, q); var v := Added(r, q);
      Inv(r')
      && v.id == NextId(r) == r'.counter && v.id !in r.videos
      && r'.videos.Keys == r.videos.Keys + {v.id}
      && v.id in r'.videos && r'.videos[v.id] == v
      && (forall k :: k in r.videos ==> r'.videos[k] == r.videos[k])
      && v.title == q.video.title && v.duration == q.video.duration
      && DataUrlId(v.dataUrl) == Some(v.id)
  {
    DataUrlIdOfDataUrl(q.serverName, q.serverPort, NextId(r));
  }

  /** The registry after registering `qs` in order. */
  function Registered(r: Registry, qs: seq<CreateRequest>): Registry {
    CreateAll(r, qs).0
  }

  /** The records returned while registering `qs` in order. */
  function Returned(r: Registry, qs: seq<CreateRequest>): seq<Video> {
    CreateAll(r, qs).1
  }

  /** Over any run of registrations, the invariant holds at the end, the
      counter has advanced by one per call and one record was returned per
      call. */
  lemma {:induction false} CreateAllInv(r: Registry, qs: seq<CreateRequest>)
    requires Inv(r)
    ensures Inv(Registered(r, qs))
    ensures Registered(r, qs).counter == r.counter + |qs|
    ensures |Returned(r, qs)| == |qs|
    decreases |qs|
  {
    if qs != [] {
      AddSound(r, qs[0]);
      CreateAllInv(Add(r, qs[0]), qs[1..]);
    }
  }

  /** The first registration of a run returns its record first. */
  lemma ReturnedCons(r: Registry, qs: seq<CreateRequest>)
    requires qs != []
    ensures Returned(r, qs) == [Added(r, qs[0])] + Returned(Add(r, qs[0]), qs[1..])
  {
  }

  /** Over any run of registrations, the i-th returned record is the i-th
      request's record stamped with identifier counter + 1 + i and the data
      URL for it. */
  lemma {:induction false} CreateAllIds(r: Registry, qs: seq<CreateRequest>)
    ensures |Returned(r, qs)| == |qs|
    ensures forall i :: 0 <= i < |qs| ==>
      Returned(r, qs)[i] == Stamp(qs[i].video, r.counter + 1 + i, qs[i].serverName, qs[i].serverPort)
    decreases |qs|
  {
    if qs != [] {
      var r1 := Add(r, qs[0]);
      var tail := Returned(r1, qs[1..]);
      CreateAllIds(r1, qs[1..]);
      ReturnedCons(r, qs);
      forall i | 0 <= i < |qs|
        ensures Returned(r, qs)[i] == Stamp(qs[i].video, r.counter + 1 + i, qs[i].serverName, qs[i].serverPort)
      {
        if i > 0 {
          var q := qs[1..][i - 1];
          assert q == qs[i];
          assert tail[i - 1] == Stamp(q.video, r1.counter + 1 + (i - 1), q.serverName, q.serverPort);
          assert Returned(r, qs)[i] == tail[i - 1];
        }
      }
    }
  }

  /** Identifiers handed out over any run of registrations strictly
      increase in call order and none of them was in use before the run. */
  lemma ReturnedIdsFresh(r: Registry, qs: seq<CreateRequest>)
    requires Inv(r)
    ensures forall i :: 0 <= i < |Returned(r, qs)| ==> Returned(r, qs)[i].id !in r.videos
    ensures forall i, j :: 0 <= i < j < |Returned(r, qs)| ==>
      Returned(r, qs)[i].id < Returned(r, qs)[j].id
  {
    CreateAllIds(r, qs);
    var vs := Returned(r, qs);
    assert forall i :: 0 <= i < |vs| ==> vs[i].id == r.counter + 1 + i;
  }

  /** Over any run of registrations, entries already present are kept
      unchanged. */
  lemma {:induction false} CreateAllKeeps(r: Registry, qs: seq<CreateRequest>)
    requires Inv(r)
    ensures forall k :: k in r.videos ==>
      k in Registered(r, qs).videos && Registered(r, qs).videos[k] == r.videos[k]
    decreases |qs|
  {
    if qs != [] {
      AddSound(r, qs[0]);
      CreateAllKeeps(Add(r, qs[0]), qs[1..]);
    }
  }

  /** Over any run of registrations, the keys added are exactly those above
      the old counter and up to the new one. */
  lemma {:induction false} CreateAllKeys(r: Registry, qs: seq<CreateRequest>)
    requires Inv(r)
    ensures forall k :: k in Registered(r, qs).videos <==>
      k in r.videos || r.counter < k <= Registered(r, qs).counter
    decreases |qs|
  {
    if qs == [] {
      assert Registered(r, qs) == r;
    } else {
      var r1 := Add(r, qs[0]);
      AddSound(r, qs[0]);
      CreateAllKeys(r1, qs[1..]);
      CreateAllInv(r1, qs[1..]);
      var r' := Registered(r, qs);
      assert r' == Registered(r1, qs[1..]);
      forall k ensures k in r'.videos <==> k in r.videos || r.counter < k <= r'.counter {
        assert k in r1.videos <==> k in r.videos || k == r.counter + 1;
      }
    }
  }

  /** Over any run of registrations, every returned record is what the
      registry finally holds under its identifier. */
  lemma {:induction false} CreateAllStored(r: Registry, qs: seq<CreateRequest>)
    requires Inv(r)
    ensures forall i :: 0 <= i < |Returned(r, qs)| ==>
      var v := Returned(r, qs)[i];
      v.id in Registered(r, qs).videos && Registered(r, qs).videos[v.id] == v
    decreases |qs|
  {
    if qs != [] {
      var r1 := Add(r, qs[0]);
      AddSound(r, qs[0]);
      CreateAllStored(r1, qs[1..]);
      CreateAllKeeps(r1, qs[1..]);
      var vs, tail := Returned(r, qs), Returned(r1, qs[1..]);
      ReturnedCons(r, qs);
      assert Registered(r, qs) == Registered(r1, qs[1..]);
      forall i | 0 < i < |vs|
        ensures vs[i].id in Registered(r, qs).videos && Registered(r, qs).videos[vs[i].id] == vs[i]
      {
        assert vs[i] == tail[i - 1];
      }
    }
  }

  /** From a fresh controller, the identifiers handed out are 1, 2, 3, ... in
      call order: they start at 1, strictly increase and are never reused. */
  lemma IdsFromEmpty(qs: seq<CreateRequest>)
    ensures var vs := Returned(Empty, qs);
      |vs| == |qs|
      && (forall i :: 0 <= i < |vs| ==> vs[i].id == i + 1)
      && (forall i, j :: 0 <= i < j < |vs| ==> vs[i].id < vs[j].id)
  {
    CreateAllIds(Empty, qs);
  }

  /** The records the registry holds (the map's values collection). */
  function Listed(m: map<int, Video>): set<Video> {
    set k | k in m :: m[k]
  }

  /** Records carrying their own key are pairwise distinct, so the values
      collection of a map whose keys lie in 1..n holds one record per entry. */
  lemma {:induction false} ListedOnePerEntry(m: map<int, Video>, n: nat)
    requires forall k :: k in m ==> 1 <= k <= n && m[k].id == k
    ensures |Listed(m)| == |m|
  {
    if n == 0 {
      assert m.Keys == {};
      assert Listed(m) == {};
    } else if n !in m {
      ListedOnePerEntry(m, n - 1);
    } else {
      var m' := m - {n};
      var v := m[n];
      ListedOnePerEntry(m', n - 1);
      assert m.Keys == m'.Keys + {n};
      assert Listed(m) == Listed(m') + {v} by {
        forall w | w in Listed(m) ensures w in Listed(m') + {v} {
          var j :| j in m && m[j] == w;
          if j != n { assert j in m'; }
        }
        forall w | w in Listed(m') ensures w in Listed(m) {
          var j :| j in m' && m'[j] == w;
          assert j in m;
        }
      }
      assert v !in Listed(m');
    }
  }

  /** Under the invariant, the listing holds exactly the stored records, one
      per entry. */
  lemma ListExact(r: Registry)
    requires Inv(r)
    ensures forall v :: v in Listed(r.videos) <==> v.id in r.videos && r.videos[v.id] == v
    ensures |Listed(r.videos)| == |r.videos|
  {
    ListedOnePerEntry(r.videos, r.counter);
  }

  /** Registering a video makes the upload and download gates pass for its
      identifier, where before they rejected it as not found. */
  lemma GatesOpenAfterAdd(r: Registry, q: CreateRequest, saved: IoOutcome, copied: IoOutcome)
    requires Inv(r)
    ensures Upload(r, NextId(r), saved) == Err(ResourceNotFound)
    ensures Stream(r, NextId(r), copied) == Err(ResourceNotFound)
    ensures Upload(Add(r, q), NextId(r), saved).Ok? <==> saved == Completed
    ensures Stream(Add(r, q), NextId(r), copied).Ok? <==> copied == Completed
  {
  }

  /** The worked scenario: two registrations on a fresh controller reached on
      port 80 of "host", then an upload to the first, requests for the second
      (whose data was never uploaded, so the file manager's copy may fail) and
      a request for an unknown identifier. */
  lemma Scenario(a: Video, b: Video)
    ensures var r1 := Add(Empty, CreateRequest(a, "host", 80));
      var r2 := Add(r1, CreateRequest(b, "host", 80));
      Added(Empty, CreateRequest(a, "host", 80)) == a.(id := 1, dataUrl := "http://host/video/1/data")
      && Added(r1, CreateRequest(b, "host", 80)).id == 2
      && Upload(r2, 1, Completed) == Ok(VideoStatus(Ready))
      && Stream(r2, 2, Completed) == Ok(())
      && Stream(r2, 2, IoException) == Err(IoFailure)
      && Stream(r2, 3, Completed) == Err(ResourceNotFound)
  {
    assert IntToDecimal(1) == "1";
    assert UrlBase("host", 80) == "http://host";
    assert DataUrl("host", 80, 1) == "http://host/video/1/data";
    var r1 := Add(Empty, CreateRequest(a, "host", 80));
    assert r1.counter == 1 && 1 in r1.videos;
    var r2 := Add(r1, CreateRequest(b, "host", 80));
    assert r2.videos.Keys == {1, 2};
  }
}
