/** check_resource_exists_from_contextid: whether a file of a course resource comes
    from the Pod repository and whether Pod still answers for it. The database join is
    an input: the optional {type, source} row it found. */
module PodExistence {
  import opened PodData
  import PodRequest

  const PodNotPod := -2
  const PodExists := 1
  const PodNotExists := 0
  const PodServerKo := -1

  /** The row of the join of files, files_reference, repository_instances and repository. */
  datatype FileRecord = FileRecord(repositoryType: string, source: string)

  predicate IsPod(record: Option<FileRecord>) {
    record.Some? && record.value.repositoryType == "pod"
  }

  /** The status of a resource, given the database row and what execute_request returned. */
  function CheckResourceExists(record: Option<FileRecord>, result: Reply): (status: int)
    ensures status == PodNotPod <==> !IsPod(record)
    ensures status == PodServerKo <==> IsPod(record) && !PodRequest.Truthy(result)
    ensures status == PodExists <==> IsPod(record) && PodRequest.Truthy(result)
    ensures status != PodNotExists
  {
    if IsPod(record) then
      if !PodRequest.Truthy(result) then PodServerKo
      // `!empty($result)` is the negation of the test above, so the last branch is dead
      else if PodRequest.Truthy(result) then PodExists
      else PodNotExists
    else PodNotPod
  }

  /** The request path of one Pod video. */
  function VideoPath(source: string): string {
    "/rest/videos/" + source + "/?"
  }

  /** The query sent when checking one video. */
  function VideoQuery(): map<string, Scalar> {
    map["format" := Str("json"), "encoding_in_progress" := Str("False")]
  }

  method CheckResourceExistsFromContextId(opts: Options, record: Option<FileRecord>,
                                          fetch: (string, map<string, Scalar>) -> Response)
    returns (status: int)
    requires opts.pageSize > 0
    ensures !IsPod(record) ==> status == PodNotPod
    ensures IsPod(record) ==>
      var response := fetch(opts.podUrl + VideoPath(record.value.source), VideoQuery());
      status == (if response.httpCode == PodRequest.HttpNotFound || !PodRequest.BodyTruthy(response.body)
                 then PodServerKo else PodExists)
  {
    if IsPod(record) {
      var result := PodRequest.ExecuteRequest(opts, VideoPath(record.value.source),
                                              Query(VideoQuery()), fetch);
      status := CheckResourceExists(record, result);
    } else {
      status := PodNotPod;
    }
  }
}
