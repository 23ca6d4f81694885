/**
 * The result shaping shared by the `*Helper` entry points of the business
 * hosts: a handler returns either a bare status or a (status, response) pair,
 * and the helper answers IRIS with a status, a converted response when there
 * is one, and a flag saying whether there is.
 */
module Replies {
  import opened Wrappers
  import opened PyValues
  import opened TypeRegistry
  import opened Messages
  import opened Dispatch

  /** What a user handler returned: a tuple or list, or anything else (taken as the status). */
  datatype HandlerResult = Bare(status: Outbound) | Packed(items: seq<Outbound>)

  /**
   * The dictionary handed back to IRIS: `status`, the response under
   * `response` (`pOutput` for a business service) when `available` is 1.
   */
  datatype Reply = Reply(status: Outbound, response: Option<Sent>, available: int)

  /**
   * The shaping branch of `OnProcessInputHelper`, `OnRequestHelper`,
   * `OnResponseHelper`, `OnMessageHelper` and `AnyMethodHelper`: a pair is
   * unpacked and its response converted by `request_to_send`; a sequence of
   * any other length fails to unpack; anything else is a bare status.
   */
  method ShapeReply(result: HandlerResult, codec: Codec) returns (r: Result<Reply, Error>)
    requires result.Packed? && |result.items| == 2 && result.items[1].OutMessage? ==> result.items[1].m.wrapper != null
    modifies if result.Packed? && |result.items| == 2 && result.items[1].OutMessage?
             then {result.items[1].m, result.items[1].m.wrapper} else {}
    ensures result.Bare? ==> r == Success(Reply(result.status, None, 0))
    ensures result.Packed? && |result.items| != 2 ==> r == Failure(UnpackFailure(|result.items|))
    ensures result.Packed? && |result.items| == 2 ==>
              var response := result.items[1];
              && r.Success? && r.value.status == result.items[0] && r.value.available == 1
              && (response.OutValue? ==> r.value.response == Some(SentValue(response.v)))
              && (response.OutHost? ==> r.value.response == Some(SentHost(response.w)))
              && (response.OutMessage? ==> r.value.response == Some(SentHost(old(response.m.wrapper))))
    ensures r.Success? ==> (r.value.response.Some? <==> r.value.available == 1)
  {
    match result {
      case Bare(status) =>
        r := Success(Reply(status, None, 0));
      case Packed(items) =>
        if |items| != 2 {
          return Failure(UnpackFailure(|items|));
        }
        var status, response := items[0], items[1];
        var sent := RequestToSend(response, codec);
        r := Success(Reply(status, Some(sent), 1));
    }
  }
}
