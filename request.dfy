/** The polling request: the JSON envelope asking the provider for the last
    hour of reports, and the headers around it. */
module Request {
  import opened Wrappers

  /** The configuration the task reads from its environment. */
  datatype Env = Env(username: string, password: string, debug: bool)

  datatype DataCenter = DataCenter(affVer: string, name: string, reqTime: int)

  datatype MsgRequest = MsgRequest(to: string, from: string, msgType: string, dataCtrTime: int)

  /** The request body; times are milliseconds since the epoch. */
  datatype RequestBody = RequestBody(kind: string, dataCenter: seq<DataCenter>, msgRequest: seq<MsgRequest>)

  datatype Request = Request(url: string, httpMethod: string, authorization: string, contentType: string, body: RequestBody)

  const FeedUrl: string := "https://apigw.spidertracks.io/go/aff/feed"

  /** The look-back window: one hour, in milliseconds. */
  const LookBack: int := 60 * 60 * 1000

  const SenderPrefix: string := "CloudTAK-"

  /** The account a sender name stands for, if it is one of ours. */
  function Account(from: string): Option<string> {
    if |SenderPrefix| <= |from| && from[..|SenderPrefix|] == SenderPrefix
    then Some(from[|SenderPrefix|..])
    else None
  }

  /** The envelope: one data-center descriptor stamped with the request time,
      one message request from this account to the provider whose lower time
      bound lies exactly one look-back window before the request time. */
  function BuildBody(username: string, now: int): (b: RequestBody)
    ensures b.kind == "dataRequest"
    ensures |b.dataCenter| == 1 && |b.msgRequest| == 1
    ensures b.dataCenter[0] == DataCenter("json 1.0", "AFF", now)
    ensures b.msgRequest[0].to == "spidertracks" && b.msgRequest[0].msgType == "dataRequest"
    ensures Account(b.msgRequest[0].from) == Some(username)
    ensures b.dataCenter[0].reqTime - b.msgRequest[0].dataCtrTime == LookBack
  {
    RequestBody(
      "dataRequest",
      [DataCenter("json 1.0", "AFF", now)],
      [MsgRequest("spidertracks", SenderPrefix + username, "dataRequest", now - LookBack)])
  }

  /** The POST to the feed endpoint with Basic credentials; `base64` stands
      for the runtime's encoder. */
  function BuildRequest(env: Env, now: int, base64: string -> string): (r: Request)
    ensures r.url == FeedUrl && r.httpMethod == "POST" && r.contentType == "application/json"
    ensures r.authorization == "Basic " + base64(env.username + ":" + env.password)
    ensures r.body == BuildBody(env.username, now)
  {
    Request(FeedUrl, "POST", "Basic " + base64(env.username + ":" + env.password),
            "application/json", BuildBody(env.username, now))
  }
}
