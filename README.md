# Video upload service: registry and data-URL model

This project models the core of the `VideoServiceController` of the VideoUp
assignment. The controller keeps videos in memory, in a map from identifier to
`Video` record. A counter mints the identifiers. The controller serves four
requests:

- `GET /video` lists the stored records.
- `POST /video` registers a record. The controller gives it the next
  identifier and a "data url", then stores it.
- `POST /video/{id}/data` hands uploaded bytes to the video file manager.
- `GET /video/{id}/data` asks the video file manager to copy the stored bytes
  to the response.

Both data requests reject an identifier the registry does not hold before the
file manager is called.

The model has four modules:

- `Decimal` (`decimal.dfy`) renders integers the way Java's string
  concatenation does: an optional minus sign, then digits without leading
  zeros. It also has the exact inverse parser.
- `DataUrls` (`dataurl.dfy`) builds the base URL and the data URL from the
  server name, the port and the identifier. `DataUrlId` recognises a data URL
  and reads back the identifier it names.
- `VideoRegistry` (`registry.dfy`) is the registry as a value: the map and the
  counter, with the invariant the controller keeps. It gives each request's
  effect as a function and proves the properties over any run of
  registrations.
- `VideoService` (`controller.dfy`) is the controller as a class. The fields
  `videos` and `counter` are updated in place. Each method is proved against
  the `VideoRegistry` functions. A ghost log `storageRequests` records the calls
  handed to the video file manager.

The invariant (`VideoRegistry.Inv`) has three parts:

- every key lies between 1 and the counter;
- the record under a key carries that key as its identifier;
- the record's data URL names that key.

The data URL depends on the server name and port of the request that created
the record, so different records may carry different hosts. The invariant
therefore uses `DataUrlId`. `DataUrls.DataUrlIdRecognises` proves that
`DataUrlId` accepts a string for identifier `id` exactly when the string is
`DataUrl(name, port, id)` for some server name and port.

## Model

| member | source | states |
|---|---|---|
| `Decimal.NatToDecimal` | assignments/Asgn1-VideoUp/src/main/java/org/magnum/dataup/web/rest/VideoServiceController.java:194 | the rendering of a natural number is canonical: non-empty, digits only, and no leading zero except for 0 itself |
| `Decimal.IntToDecimal` | assignments/Asgn1-VideoUp/src/main/java/org/magnum/dataup/web/rest/VideoServiceController.java:203 | the rendering of a signed integer is non-empty, holds only digits and '-', and starts with '-' exactly when the number is negative |
| `Decimal.ParseNatOfNatToDecimal` | assignments/Asgn1-VideoUp/src/main/java/org/magnum/dataup/web/rest/VideoServiceController.java:194 | parsing the rendering of a natural number gives the number back |
| `Decimal.NatToDecimalOfParseNat` | assignments/Asgn1-VideoUp/src/main/java/org/magnum/dataup/web/rest/VideoServiceController.java:194 | every digit string the parser accepts is the rendering of its value, so rendering is a bijection onto canonical digit strings |
| `Decimal.IntRoundTrip` | assignments/Asgn1-VideoUp/src/main/java/org/magnum/dataup/web/rest/VideoServiceController.java:194 | parsing the rendering of a signed identifier or port gives it back |
| `Decimal.ParseIntCanonical` | assignments/Asgn1-VideoUp/src/main/java/org/magnum/dataup/web/rest/VideoServiceController.java:203 | every string the signed parser accepts is the rendering of its value |
| `Decimal.IntToDecimalInjective` | assignments/Asgn1-VideoUp/src/main/java/org/magnum/dataup/web/rest/VideoServiceController.java:194 | distinct integers have distinct renderings |
| `DataUrls.UrlBase` | assignments/Asgn1-VideoUp/src/main/java/org/magnum/dataup/web/rest/VideoServiceController.java:198-205 | no contract of its own: the body is getUrlBaseForLocalServer's expression, "http://", the server name, then ':' and the port only when the port is not 80; `UrlBaseShape` and `UrlBasePortInjective` state its properties |
| `DataUrls.DataUrl` | assignments/Asgn1-VideoUp/src/main/java/org/magnum/dataup/web/rest/VideoServiceController.java:193-196 | no contract of its own: the body is getDataUrl's concatenation of the base, "/video/", the rendered identifier and "/data"; `DataUrlIdOfDataUrl`, `DataUrlIdRecognises` and `DataUrlIdInjective` state its properties |
| `DataUrls.UrlBaseShape` | assignments/Asgn1-VideoUp/src/main/java/org/magnum/dataup/web/rest/VideoServiceController.java:201-203 | the base is "http://" followed by the server name; it ends there exactly when the port is 80; otherwise ':' follows, then a rendering that reads back as the port |
| `DataUrls.UrlBasePortInjective` | assignments/Asgn1-VideoUp/src/main/java/org/magnum/dataup/web/rest/VideoServiceController.java:201-203 | for one server name, different ports give different bases |
| `DataUrls.DataUrlIdOfDataUrl` | assignments/Asgn1-VideoUp/src/main/java/org/magnum/dataup/web/rest/VideoServiceController.java:193-196 | the data URL built for an identifier names that identifier, whatever the server name and port |
| `DataUrls.DataUrlIdSound` | assignments/Asgn1-VideoUp/src/main/java/org/magnum/dataup/web/rest/VideoServiceController.java:193-196 | every string accepted as naming an identifier is the data URL of that identifier for some server name on the default port |
| `DataUrls.DataUrlIdRecognises` | assignments/Asgn1-VideoUp/src/main/java/org/magnum/dataup/web/rest/VideoServiceController.java:193-196 | a string names an identifier if and only if it is a data URL built for it |
| `DataUrls.DataUrlIdInjective` | assignments/Asgn1-VideoUp/src/main/java/org/magnum/dataup/web/rest/VideoServiceController.java:193-196 | equal data URLs belong to the same identifier, even across server names and ports |
| `VideoRegistry.Stamp` | assignments/Asgn1-VideoUp/src/main/java/org/magnum/dataup/web/rest/VideoServiceController.java:85-86 | no contract of its own: the body is `setId(id)` followed by `setDataUrl(getDataUrl(id))`, with every other field unchanged; `AddSound` and `CreateAllIds` state its properties |
| `VideoRegistry.Add` | assignments/Asgn1-VideoUp/src/main/java/org/magnum/dataup/web/rest/VideoServiceController.java:83-87 | no contract of its own: the body is `incrementAndGet` and `put` of the stamped record under the new identifier; `AddSound` and the `CreateAll` lemmas state its properties, and `AddVideo` is proved against it |
| `VideoRegistry.Upload` | assignments/Asgn1-VideoUp/src/main/java/org/magnum/dataup/web/rest/VideoServiceController.java:111-144 | no contract of its own: the body is the `containsKey` gate (not found), then READY when the file manager's save completes and an I/O failure otherwise; `GatesOpenAfterAdd` states its properties, and `HandleFileUpload` is proved against it |
| `VideoRegistry.Stream` | assignments/Asgn1-VideoUp/src/main/java/org/magnum/dataup/web/rest/VideoServiceController.java:169-189 | no contract of its own: the body is the `containsKey` gate (not found), then success when the file manager's copy completes and an I/O failure otherwise; `GatesOpenAfterAdd` states its properties, and `StreamFile` is proved against it |
| `VideoRegistry.AddSound` | assignments/Asgn1-VideoUp/src/main/java/org/magnum/dataup/web/rest/VideoServiceController.java:80-90 | addVideo keeps the invariant; the new identifier is old counter + 1 and becomes the counter; it was not a key before; exactly that key is added and maps to the returned record; all earlier entries are unchanged; descriptive fields pass through; the data URL names the new identifier |
| `VideoRegistry.CreateAllInv` | assignments/Asgn1-VideoUp/src/main/java/org/magnum/dataup/web/rest/VideoServiceController.java:83-87 | over any run of registrations from a registry that satisfies the invariant, the invariant holds at the end, the counter ends at counter + number of calls, and one record is returned per call |
| `VideoRegistry.CreateAllIds` | assignments/Asgn1-VideoUp/src/main/java/org/magnum/dataup/web/rest/VideoServiceController.java:83-86 | over any run of registrations, one record is returned per call, and the i-th record returned is the request's record stamped with identifier counter + 1 + i and the data URL for that identifier |
| `VideoRegistry.ReturnedIdsFresh` | assignments/Asgn1-VideoUp/src/main/java/org/magnum/dataup/web/rest/VideoServiceController.java:83 | from a registry satisfying the invariant, identifiers handed out strictly increase in call order and none was in use before the run |
| `VideoRegistry.CreateAllKeeps` | assignments/Asgn1-VideoUp/src/main/java/org/magnum/dataup/web/rest/VideoServiceController.java:87 | from a registry satisfying the invariant, over any run of registrations, entries already stored stay present and unchanged |
| `VideoRegistry.CreateAllKeys` | assignments/Asgn1-VideoUp/src/main/java/org/magnum/dataup/web/rest/VideoServiceController.java:83-87 | from a registry satisfying the invariant, after any run of registrations, a key is present exactly when it was present before or lies above the old counter and at most the new one |
| `VideoRegistry.CreateAllStored` | assignments/Asgn1-VideoUp/src/main/java/org/magnum/dataup/web/rest/VideoServiceController.java:85-89 | from a registry satisfying the invariant, after any run of registrations, every record returned is the record stored under its identifier |
| `VideoRegistry.IdsFromEmpty` | assignments/Asgn1-VideoUp/src/main/java/org/magnum/dataup/web/rest/VideoServiceController.java:35 | from a fresh controller, identifiers are 1, 2, 3, ... in call order: they start at 1 and strictly increase |
| `VideoRegistry.ListedOnePerEntry` | assignments/Asgn1-VideoUp/src/main/java/org/magnum/dataup/web/rest/VideoServiceController.java:48 | for a map whose keys all lie in 1..n and whose records each carry their own key, the values collection has as many records as the map has entries |
| `VideoRegistry.ListExact` | assignments/Asgn1-VideoUp/src/main/java/org/magnum/dataup/web/rest/VideoServiceController.java:47-48 | under the invariant, a record is listed exactly when it is stored under its own identifier, and the listing has one record per entry |
| `VideoRegistry.GatesOpenAfterAdd` | assignments/Asgn1-VideoUp/src/main/java/org/magnum/dataup/web/rest/VideoServiceController.java:111-113 | the next identifier is rejected as not found by upload and download before it is registered; after registration both succeed exactly when the file manager call completes |
| `VideoRegistry.Scenario` | assignments/Asgn1-VideoUp/src/main/java/org/magnum/dataup/web/rest/VideoServiceController.java:80-90 | on a fresh controller reached at "host" on port 80, the first record gets id 1 and data URL "http://host/video/1/data" and the second gets id 2; an upload to 1 answers READY; a download of 2 passes the gate and answers an I/O failure when the file manager's copy fails, as it does when no data was uploaded; a download of 3 is not found |
| `VideoService.VideoServiceController.constructor` | assignments/Asgn1-VideoUp/src/main/java/org/magnum/dataup/web/rest/VideoServiceController.java:33-35 | a new controller has an empty map, counter 0, no file manager calls, and satisfies the invariant |
| `VideoService.VideoServiceController.GetVideoList` | assignments/Asgn1-VideoUp/src/main/java/org/magnum/dataup/web/rest/VideoServiceController.java:47-48 | changes nothing; the result holds a record exactly when it is stored under its own identifier, with one record per map entry |
| `VideoService.VideoServiceController.AddVideo` | assignments/Asgn1-VideoUp/src/main/java/org/magnum/dataup/web/rest/VideoServiceController.java:80-90 | keeps the invariant; the returned record has identifier old counter + 1, which becomes the counter and was not a key; it carries the data URL for that identifier and the request's descriptive fields; the map gains exactly that entry |
| `VideoService.VideoServiceController.HandleFileUpload` | assignments/Asgn1-VideoUp/src/main/java/org/magnum/dataup/web/rest/VideoServiceController.java:107-145 | the registry is unchanged; an unknown identifier is rejected as not found and the file manager is not called; a known one passes the stored record and the bytes to the file manager and answers READY exactly when the save completes, otherwise an I/O failure |
| `VideoService.VideoServiceController.StreamFile` | assignments/Asgn1-VideoUp/src/main/java/org/magnum/dataup/web/rest/VideoServiceController.java:165-191 | the registry is unchanged; an unknown identifier is rejected as not found and the file manager is not called; a known one asks the file manager to copy the stored record's data, and a failed copy is passed on as an I/O failure |

## Left out

- Spring request routing, JSON marshalling and multipart parsing are framework glue. The upload arrives as the byte sequence `getBytes` would return.
- The request lookup through `RequestContextHolder` (lines 199-200) is not modelled. The server name and port are parameters of `AddVideo`.
- The video file manager (`saveVideoData`, `copyVideoData`) is not part of this model. Each call is recorded as a `StorageRequest`. How the call ended is an input (`IoOutcome`). No claim is made that bytes saved are the bytes later copied. "No data uploaded yet" is the file manager's own failure and appears only as `IoException`.
- Writing to the servlet response stream is I/O and is not modelled.
- `VideoService.VideoServiceController.HandleFileUpload` and `VideoService.VideoServiceController.StreamFile`: after the gate, `VideoFileManager.get()` (lines 115 and 173), `data.getBytes()` (line 139) and `response.getOutputStream()` (line 189) may throw `IOException` before `saveVideoData` or `copyVideoData` is reached. The model folds these failures into the `IoOutcome` input. It still records the file manager call in `storageRequests` in that case, although in Java the call would not happen.
- The thread safety of `ConcurrentHashMap` and `AtomicLong.incrementAndGet` is not modelled. The registry is modelled sequentially.
- The commented-out blocks at lines 117-137 and 175-187 are dead code and are left out. The `Processing` state exists in `VideoState` but is never returned, as in the live code.
- `VideoService.VideoServiceController.AddVideo`: the counter is an unbounded `nat`. Java `long` overflow after 2^63 - 1 registrations is not modelled.
- Video records are values. In Java the object the client sent is updated and then both stored and returned. A later change through that reference would alter the stored record, and this model does not capture that aliasing. The `Video` class is not part of this model. `title` and `duration` stand for its descriptive fields, which the controller passes through unchanged.
- `VideoService.VideoServiceController.GetVideoList` returns a snapshot `set<Video>` of the stored records. Java returns `videos.values()` (line 48), a live view of the map that reflects later registrations; the model does not capture that view.
- The doc comment at lines 147-163 promises a 404 when no data has been uploaded yet. In the code that failure can only come from the file manager, which is not part of this model. The model passes it on as an I/O failure.
