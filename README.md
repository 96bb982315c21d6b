# Pod repository plugin: Dafny model of the REST API manager

This project models the core of the Moodle repository plugin for the Pod video
platform. The core is the class `repository_pod_api_manager`. It has three operations:

- `execute_request` sends a GET to the Pod REST API. It classifies the answer as
  `false`, a paginated page `{page, results, pages, total}`, or the decoded body passed
  through unchanged.
- `get_all_encoded_files` turns such a page into the file picker's list view. It keeps
  only audio and video records, and it emits one row per extension group of each record,
  built from the first file of that group. Rows are keyed 0, 1, 2, … by a running
  counter. URLs and thumbnails get an `http:` or `https:` prefix. The creation date falls
  back to the modification date, and the thumbnail falls back to the extension icon.
- `check_resource_exists_from_contextid` classifies a course file as not from Pod
  (−2), Pod unreachable (−1) or existing (1). The fourth status, "not exists" (0), is
  declared but can never be returned.

Files:

- `pod_data.dfy` (module `PodData`): the records, options, responses and list view as
  datatypes.
- `pod_request.dfy` (module `PodRequest`): `execute_request`. The HTTP GET is a parameter
  `fetch`, which maps the URL and the query to the status code and the decoded body.
- `pod_listing.dfy` (module `PodListing`): `get_all_encoded_files`, as a method proved
  against the specification function `Entries`, and lemmas about `Entries`.
- `pod_existence.dfy` (module `PodExistence`): the existence classification as a
  function, and the whole operation as a method that performs the request.

The manager never updates its fields, so the model has no class. Its `$options` are
the datatype `Options`, passed to each operation.

The host platform's services are given as the datatype `Host`: `strtotime`, the
extension icon URL and the catalogue string for the licence. The database row found by
the SQL join is an input of type `Option<FileRecord>`.

## Model

| member | source | states |
|---|---|---|
| `PodRequest.ExecuteRequest` | classes/manager/repository_pod_api_manager.php:52-76 | Non-array params give `false` whatever the server would answer. For array params, the reply is `false` exactly when the status is 404 or the decoded body is empty in PHP's sense. It is a page exactly when the status is not 404 and the body is an object with `results`. A page keeps the results in their original order, copies `count` to `total`, sets `pages` to the ceiling of count / page size, and takes `page` from the params, defaulting to 1. Any other body is returned unchanged. Every reply is `false` or truthy. |
| `PodRequest.CeilDiv` | classes/manager/repository_pod_api_manager.php:67 | The page count is the least `q` with `count <= q * page_size`, i.e. `(q - 1) * page_size < count <= q * page_size`. |
| `PodListing.GetAllEncodedFiles` | classes/manager/repository_pod_api_manager.php:77-158 | `total`, `pages` and `page` are copied from the input. `perpage` is the configured page size and `norefresh` is true. The keys of `list` are exactly 0..n-1, where n is the number of rows `Entries` gives for the results, and key k holds row k. Empty `results` give an empty `list`. |
| `PodListing.ListRecord` | classes/manager/repository_pod_api_manager.php:91-152 | One pass of the loop over the results. It adds the record's rows under the keys i, i+1, … in order, advances the counter by the number of rows, and leaves the other keys unchanged. A record that is not audio or video adds nothing. |
| `PodListing.ListGroups` | classes/manager/repository_pod_api_manager.php:112-151 | The loop over the extension groups. It adds one row per non-empty group, under consecutive keys from the counter, and leaves every earlier key unchanged. |
| `PodListing.NonMediaContributesNothing` | classes/manager/repository_pod_api_manager.php:92-96 | Removing a record whose `mediatype` is neither `audio` nor `video` leaves the list of rows unchanged. |
| `PodListing.GroupEntriesCount` | classes/manager/repository_pod_api_manager.php:112-149 | A record yields exactly as many rows as it has non-empty extension groups. |
| `PodListing.GroupEntriesAt` | classes/manager/repository_pod_api_manager.php:114-146 | The row of non-empty group g is built from that group's first file. It comes right after the rows of the non-empty groups before g, so rows follow the groups' order. |
| `PodListing.GroupEntryOrigin` | classes/manager/repository_pod_api_manager.php:114-146 | Every row of a record is built from the first file of one of its non-empty groups. |
| `PodListing.EntriesAt` | classes/manager/repository_pod_api_manager.php:88-152 | The rows of record k sit right after the rows of the records before it, in the record's own order. So the list follows the order of `results`, and within a record the order of its groups. |
| `PodListing.EntryOrigin` | classes/manager/repository_pod_api_manager.php:97-143 | Every row comes from an audio or video record of the page. Its title is the record's title followed by the extension. Its URL is `https:` or `http:` (following the https flag) followed by `full_url`. Its size is null. When `date_evt` is null, `datecreated` equals `datemodified`; otherwise it is the parsed `date_evt`. The thumbnail is the scheme-prefixed record thumbnail when the thumbnail option is unset and the record has one, and the extension icon in every other case. The extension is that of the first file of one of the record's groups. |
| `PodExistence.CheckResourceExists` | classes/manager/repository_pod_api_manager.php:173-191 | The status is −2 exactly when there is no row or its type is not `pod`. It is −1 exactly for a pod row whose request result is falsy, and 1 exactly for a pod row whose result is truthy. It is never 0. |
| `PodExistence.CheckResourceExistsFromContextId` | classes/manager/repository_pod_api_manager.php:165-192 | A non-pod row gives −2. For a pod row, the answer to GET `pod_url + "/rest/videos/<source>/?"` with `format=json` and `encoding_in_progress=False` gives −1 when it is a 404 or an empty body, and 1 otherwise. |

## Left out

- The HTTP transport (the `curl` client, its two headers, `get`, `get_info`) and `json_decode` are not modelled. `ExecuteRequest` receives them as `fetch`, a function from URL and query to the status code and the decoded body.
- `ExecuteRequest`: a pure `fetch` cannot show whether a request was sent. So the contract states only that non-array params give `false` whatever the server would answer. It does not state that no request is made; the method body makes the check before the call.
- `ExecuteRequest`: requires a positive `page_size`. A zero page size would raise a division error in the envelope branch.
- `CeilDiv`: the source computes `ceil` on floats. The model uses exact integer ceiling, so float rounding for very large counts is not modelled.
- Decoded bodies that are bare scalars (`true`, a number, a string) are not modelled. Neither is an envelope without `count`. Pod answers with objects and arrays.
- The SQL join of `check_resource_exists_from_contextid` (lines 167-172) is not modelled. Its result is the input `Option<FileRecord>`.
- The source creates the manager in the existence check with no arguments (line 175). PHP rejects that call, because the constructor requires the options. The model passes the configured options instead. The doc comment at line 163 gives "2" for a non-pod resource, but the code returns `POD_NOTPOD = -2`, and the model follows the code.
- `get_string`, `$OUTPUT->image_url(file_extension_icon(...))` and `strtotime` are host-platform calls. They are the fields of `Host`, and their results are uninterpreted.
- The `try`/`catch` around the thumbnail choice (lines 130-143) is not modelled. Nothing inside can throw, and the catch gives the same icon fallback that the model uses.
- The `$duration` that `get_all_encoded_files` reads and never uses is not modelled. Neither is the unused `$method` parameter of `execute_request`.
- The `in_array` test on `mediatype` is loose in PHP. The model treats `mediatype` as a string, for which it is plain equality.
- version.php is plugin metadata with no logic, so it is not modelled.
