/** The video service controller: the registry it keeps in its fields and the
    four requests it serves. Host and port of the current request are passed
    in; the video file manager is represented by the requests handed to it,
    recorded in `storageRequests`, and by how each call ended, passed in as an
    `IoOutcome`. */
module VideoService {
  import opened DataUrls
  import opened VideoRegistry

  class VideoServiceController {
    var videos: map<int, Video>
    var counter: nat
    /** The calls made to the video file manager, oldest first. */
    ghost var storageRequests: seq<StorageRequest>

    function State(): Registry
      reads this`videos, this`counter
    {
      Registry(videos, counter)
    }

    ghost predicate Valid()
      reads this`videos, this`counter
    {
      Inv(State())
    }

    constructor ()
      ensures Valid() && State() == Empty && storageRequests == []
    {
      videos := map[];
      counter := 0;
      storageRequests := [];
    }

    /** getVideoList: every stored record, one per entry, and nothing else. */
    method GetVideoList() returns (list: set<Video>)
      requires Valid()
      ensures forall v :: v in list <==> v.id in videos && videos[v.id] == v
      ensures |list| == |videos|
    {
      list := set k | k in videos :: videos[k];
      ListExact(State());
    }

    /** addVideo: mint the next identifier, stamp it and its data URL onto
        the record, and store the record under that identifier. */
    method AddVideo(v: Video, serverName: string, serverPort: int) returns (stored: Video)
      requires Valid()
      modifies this`videos, this`counter
      ensures Valid()
      ensures State() == Add(old(State()), CreateRequest(v, serverName, serverPort))
      ensures stored == Added(old(State()), CreateRequest(v, serverName, serverPort))
      ensures stored.id == old(counter) + 1 == counter && stored.id !in old(videos)
      ensures videos == old(videos)[stored.id := stored]
      ensures stored.dataUrl == DataUrl(serverName, serverPort, stored.id)
      ensures stored.title == v.title && stored.duration == v.duration
    {
      ghost var before := State();
      counter := counter + 1;
      var id := counter;
      var w := v.(id := id);
      w := w.(dataUrl := DataUrl(serverName, serverPort, w.id));
      videos := videos[id := w];
      stored := w;
      AddSound(before, CreateRequest(v, serverName, serverPort));
    }

    /** handleFileUpload: an identifier the registry does not hold is rejected
        as not found before the file manager is called; otherwise the bytes
        are handed to the file manager with the stored record, and the answer
        is READY unless the save failed. The registry is left as it was. */
    method HandleFileUpload(id: int, data: seq<bv8>, saved: IoOutcome) returns (status: Result<VideoStatus>)
      modifies this`storageRequests
      ensures State() == old(State())
      ensures status == Upload(State(), id, saved)
      ensures id !in videos ==> status == Err(ResourceNotFound) && storageRequests == old(storageRequests)
      ensures id in videos ==>
        storageRequests == old(storageRequests) + [SaveVideoData(videos[id], data)]
        && (status.Ok? <==> saved == Completed)
        && (status.Ok? ==> status.value == VideoStatus(Ready))
        && (status.Err? ==> status.error == IoFailure)
    {
      if id !in videos {
        return Err(ResourceNotFound);
      }
      storageRequests := storageRequests + [SaveVideoData(videos[id], data)];
      if saved == IoException {
        return Err(IoFailure);
      }
      status := Ok(VideoStatus(Ready));
    }

    /** streamFile: an identifier the registry does not hold is rejected as not
        found before the file manager is called; otherwise the file manager is
        asked to copy the stored record's data, and its failure is passed on.
        The registry is left as it was. */
    method StreamFile(id: int, copied: IoOutcome) returns (result: Result<()>)
      modifies this`storageRequests
      ensures State() == old(State())
      ensures result == Stream(State(), id, copied)
      ensures id !in videos ==> result == Err(ResourceNotFound) && storageRequests == old(storageRequests)
      ensures id in videos ==>
        storageRequests == old(storageRequests) + [CopyVideoData(videos[id])]
        && (result.Ok? <==> copied == Completed)
        && (result.Err? ==> result.error == IoFailure)
    {
      if id !in videos {
        return Err(ResourceNotFound);
      }
      storageRequests := storageRequests + [CopyVideoData(videos[id])];
      if copied == IoException {
        return Err(IoFailure);
      }
      result := Ok(());
    }
  }
}
