/** The response-shaping part of execute_request: the HTTP GET is the `fetch`
    parameter, which maps the URL and the query to the status code and decoded body. */
module PodRequest {
  import opened PodData

  const HttpNotFound := 404

  /** PHP truthiness of a decoded body (`!empty($datas)`); an object is never empty. */
  predicate BodyTruthy(b: Body) {
    match b
    case Undecodable => false
    case List(items) => |items| > 0
    case Envelope(_, _) => true
    case Object(_) => true
  }

  /** PHP truthiness of what execute_request returns; `!$x` and `empty($x)` agree on it. */
  predicate Truthy(r: Reply) {
    match r
    case Fail => false
    case Paged(_) => true
    case Decoded(b) => BodyTruthy(b)
  }

  /** `(int)ceil(n / d)` for a positive divisor: the least q with n <= q * d. */
  function CeilDiv(n: int, d: int): (q: int)
    requires d > 0
    ensures n <= q * d
    ensures (q - 1) * d < n
  {
    var f := (-n) / d;
    assert -n == d * f + (-n) % d;
    assert (-f) * d == n + (-n) % d by {
      assert (-f) * d == -(d * f);
    }
    -f
  }

  /** The requested page: params['page'] when it is set and not null, 1 otherwise. */
  function RequestedPage(args: map<string, Scalar>): Scalar {
    if "page" in args && args["page"] != Null then args["page"] else Int(1)
  }

  method ExecuteRequest(opts: Options, path: string, params: Params,
                        fetch: (string, map<string, Scalar>) -> Response)
    returns (reply: Reply)
    requires opts.pageSize > 0
    ensures params.NotAnArray? ==> reply == Fail
    ensures params.Query? ==>
      var response := fetch(opts.podUrl + path, params.args);
      && (reply.Fail? <==> response.httpCode == HttpNotFound || !BodyTruthy(response.body))
      && (reply.Paged? <==> response.httpCode != HttpNotFound && response.body.Envelope?)
      && (reply.Paged? ==>
            && reply.result.results == response.body.results
            && reply.result.total == response.body.count
            && reply.result.pages == CeilDiv(response.body.count, opts.pageSize)
            && reply.result.page == RequestedPage(params.args))
      && (reply.Decoded? ==> reply.body == response.body)
    ensures reply.Fail? || Truthy(reply)
  {
    if params.NotAnArray? {
      return Fail;
    }
    var res: seq<Record> := [];
    var response := fetch(opts.podUrl + path, params.args);
    if response.httpCode == HttpNotFound {
      return Fail;
    }
    var datas := response.body;
    if BodyTruthy(datas) {
      if datas.Envelope? {
        for k := 0 to |datas.results|
          invariant res == datas.results[..k]
        {
          res := res + [datas.results[k]];
        }
        var numPages := CeilDiv(datas.count, opts.pageSize);
        var page := RequestedPage(params.args);
        return Paged(PageResult(page, res, numPages, datas.count));
      } else {
        return Decoded(datas);
      }
    } else {
      return Fail;
    }
  }
}
