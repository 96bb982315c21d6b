/** Values the Pod repository plugin exchanges with the Pod REST API, with the host
    platform and with the file picker. JSON objects are given the fields the plugin
    reads; a property the plugin tests with property_exists is an Option. */
module PodData {

  datatype Option<+T> = None | Some(value: T)

  /** A PHP scalar as it appears among query parameters and page numbers. */
  datatype Scalar = Null | Int(i: int) | Str(s: string)

  /** The plugin's configuration, the manager's $options. */
  datatype Options = Options(
    podUrl: string,       // pod_url: base URL every request path is appended to
    pageSize: int,        // page_size
    https: bool,          // https, cast to a boolean
    thumbnailSet: bool)   // whether the thumbnail option is set (isset): record thumbnails are then ignored

  /** One encoded variant of a media; the plugin reads only its extension. */
  datatype VideoFile = VideoFile(extension: string)

  /** The video_data object of a Pod record. */
  datatype VideoData = VideoData(
    mediatype: string,
    title: string,
    fullUrl: string,                          // scheme-relative URL ("//host/path")
    owner: string,
    thumbnail: Option<string>,                // None when the property is absent; a JSON null is Some("")
    videoFiles: Option<seq<seq<VideoFile>>>)  // the variants grouped per extension, in the JSON object's order

  /** One element of the `results` of a Pod listing. */
  datatype Record = Record(
    id: int,
    videoData: VideoData,
    dateAdded: string,
    dateEvt: Option<string>)                  // None when date_evt is null

  /** What json_decode made of a response body, as far as the plugin inspects it. */
  datatype Body =
    | Undecodable                                   // null: malformed text or a JSON null
    | List(items: seq<Record>)                      // a top-level JSON array
    | Envelope(count: int, results: seq<Record>)    // an object with a `results` property
    | Object(fields: map<string, Scalar>)           // any other object, e.g. a single video

  /** An HTTP answer: its status code and its decoded body. */
  datatype Response = Response(httpCode: int, body: Body)

  /** Query parameters: execute_request accepts only a PHP array. */
  datatype Params = NotAnArray | Query(args: map<string, Scalar>)

  /** The paginated shape execute_request builds from an envelope. */
  datatype PageResult = PageResult(page: Scalar, results: seq<Record>, pages: int, total: int)

  /** What execute_request returns: false, a page, or the decoded body unchanged. */
  datatype Reply = Fail | Paged(result: PageResult) | Decoded(body: Body)

  /** The host platform's services used by the listing mapper: strtotime (None stands
      for its false), the URL of an extension's 80-pixel icon, and the catalogue string
      podlicenceinformationunavailable. */
  datatype Host = Host(
    parseDate: string -> Option<int>,
    iconUrl: string -> string,
    licenceUnavailable: string)

  /** One row of the file picker. */
  datatype Entry = Entry(
    title: string,
    url: string,
    source: int,
    extension: string,
    dateCreated: Option<int>,
    dateModified: Option<int>,
    size: Option<int>,
    author: string,
    license: string,
    thumbnail: string)

  /** The file picker's list view: pagination header and the rows keyed 0, 1, 2, ... */
  datatype ListView = ListView(
    total: int,
    pages: int,
    perpage: int,
    page: Scalar,
    norefresh: bool,
    list: map<int, Entry>)
}
