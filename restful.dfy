/** The registry's request handlers (server/src/restful.rs), with the HTTP
    framework and JSON taken off: a handler maps its inputs, the dumps file
    and the environment's failures to a status code and a response value. */
module Restful {
  import opened Common
  import opened UtilsLib
  import opened UtilsClient
  import opened UtilsServer
  import opened Storage

  /** The lifetime, in seconds, given to every stored record (the build
      without the `debug-lifetime` feature). */
  const DefaultLifetime: U64 := 60

  /** The application name reported by `get_server_info`. */
  const AppName: string := "Here"

  /** The HTTP status codes the handlers answer with. */
  datatype StatusCode = Ok200 | Forbidden403 | NotFound404 | InternalServerError500
  {
    /** The numeric code sent on the wire: a success or a client or server error. */
    function Code(): (c: nat)
      ensures c == 200 || 400 <= c < 600
      ensures c == 200 <==> this == Ok200
    {
      match this
      case Ok200 => 200
      case Forbidden403 => 403
      case NotFound404 => 404
      case InternalServerError500 => 500
    }
  }

  /** `get_server_info`: always 200 with the app's name and the build's
      version (the version string comes from the build and is a parameter). */
  function GetServerInfo(version: string): (r: (StatusCode, AppInfo))
    ensures r.0 == Ok200 && r.0.Code() == 200
    ensures r.1.name == AppName && r.1.version == version
  {
    (Ok200, AppInfo(AppName, version))
  }

  /** What opening the store and querying it by account produced. */
  datatype Lookup = OpenFailed | QueryFailed(error: DbError) | Found(record: ClientInfoRecord)

  /** Whether a lookup's password, or its absence, grants access to a stored
      record: no password on either side, or the digest of the supplied one. */
  predicate Admits(info: ClientInfo, passwd: Option<string>, sha256: Digest)
  {
    || (passwd.None? && info.passwd.None?)
    || (passwd.Some? && info.passwd == Some(sha256(passwd.value)))
  }

  /** The response the handler starts from. The source calls
      `GetClientInfoResponse::new` without the three arguments its
      definition takes, so these three fields follow no definition, and no
      contract below mentions them. */
  function Blank(): GetClientInfoResponse
  {
    GetClientInfoResponse.New(None, "", None)
  }

  /** The decision chain of `get_client_info` after the lookup: open error,
      not found, other database error, missing password, wrong password,
      success. */
  function GetClientInfoReply(lookup: Lookup, passwd: Option<string>, sha256: Digest): (r: (StatusCode, GetClientInfoResponse))
    // the status code and the flag agree; a refusal always says why
    ensures r.0 == Ok200 <==> r.1.isOk
    ensures r.1.isOk <==> r.1.message.None?
    // store failures
    ensures lookup.OpenFailed? ==> r.0 == InternalServerError500 && r.1.message == Some(DatabaseError)
    ensures lookup.QueryFailed? && lookup.error == ItemNotFound ==>
      r.0 == NotFound404 && r.1.message == Some(NotFound)
    ensures lookup.QueryFailed? && lookup.error != ItemNotFound ==>
      r.0 == InternalServerError500 && r.1.message == Some(DatabaseError)
    ensures r.0.Code() == 404 <==> lookup == QueryFailed(ItemNotFound)
    // the password gate
    ensures r.1.isOk <==> lookup.Found? && Admits(lookup.record.clientInfo, passwd, sha256)
    ensures lookup.Found? && !Admits(lookup.record.clientInfo, passwd, sha256) ==>
      r.0 == Forbidden403 && r.1.message == Some(InvalidPassword)
    // the record is disclosed only to a verified password
    ensures r.1.data.Some? <==> r.1.isOk && passwd.Some?
    ensures r.1.data.Some? ==> lookup.Found? && r.1.data.value == lookup.record.clientInfo
  {
    match lookup
    case OpenFailed =>
      (InternalServerError500, Blank().SetMessage(Some(DatabaseError)))
    case QueryFailed(e) =>
      if e == ItemNotFound then (NotFound404, Blank().SetMessage(Some(NotFound)))
      else (InternalServerError500, Blank().SetMessage(Some(DatabaseError)))
    case Found(item) =>
      var info := item.clientInfo;
      match passwd
      case None =>
        if info.passwd.Some? then (Forbidden403, Blank().SetMessage(Some(InvalidPassword)))
        else (Ok200, Blank().SetOk(true))
      case Some(p) =>
        if !info.VerifyPasswd(p, sha256) then (Forbidden403, Blank().SetMessage(Some(InvalidPassword)))
        else (Ok200, Blank().SetOk(true).SetData(info))
  }

  /** `get_client_info`: open the dumps file (which may fail), query it for
      some record of the account, and answer by `GetClientInfoReply`.
      `lookup` names what the open and the query produced. */
  method GetClientInfo(file: DumpFile, params: GetClientInfoParams, sha256: Digest, openFails: bool)
      returns (status: StatusCode, resp: GetClientInfoResponse, ghost lookup: Lookup)
    ensures (status, resp) == GetClientInfoReply(lookup, params.passwd, sha256)
    ensures lookup.OpenFailed? <==> openFails
    ensures lookup.QueryFailed? <==>
      !openFails && forall x :: x in file.contents ==> x.clientInfo.account != params.account
    ensures lookup.QueryFailed? ==> lookup.error == ItemNotFound
    ensures lookup.Found? ==>
      lookup.record in file.contents && lookup.record.clientInfo.account == params.account
    // the same, stated of the reply itself
    ensures openFails ==> status == InternalServerError500 && resp.message == Some(DatabaseError)
    ensures !openFails && (forall x :: x in file.contents ==> x.clientInfo.account != params.account) ==>
      status == NotFound404 && resp.message == Some(NotFound)
    ensures resp.isOk ==>
      exists x :: x in file.contents && x.clientInfo.account == params.account &&
                  Admits(x.clientInfo, params.passwd, sha256)
    ensures resp.data.Some? ==>
      exists x :: x in file.contents && x.clientInfo.account == params.account && resp.data.value == x.clientInfo
    // with a single record for the account, the reply is determined
    ensures forall x :: (x in file.contents && x.clientInfo.account == params.account && !openFails &&
                         forall y :: y in file.contents && y.clientInfo.account == params.account ==> y == x)
                        ==> (status, resp) == GetClientInfoReply(Found(x), params.passwd, sha256)
  {
    var handle := AutoFrom(file, openFails);
    var found: Lookup;
    if handle.Err? {
      found := OpenFailed;
    } else {
      var db := handle.value;
      var item := db.QueryItem((r: ClientInfoRecord) => r.clientInfo.account, params.account);
      found := if item.Ok? then Found(item.value) else QueryFailed(item.error);
    }
    lookup := found;
    var reply := GetClientInfoReply(found, params.passwd, sha256);
    status, resp := reply.0, reply.1;
  }

  /** Which steps of a registration the environment makes fail. */
  datatype PostFaults = PostFaults(open: bool, add: bool, dump: bool)

  /** `post_client_info`: open, add a record with the DEFAULT lifetime, dump;
      the first failing step answers 500 and skips the rest. Every response
      echoes the posted id, account and password digest. */
  method PostClientInfo(file: DumpFile, clientInfo: ClientInfo, now: int, faults: PostFaults)
      returns (status: StatusCode, resp: PostClientInfoResponse)
    modifies file
    ensures resp.id == clientInfo.id && resp.account == clientInfo.account && resp.passwd == clientInfo.passwd
    ensures status == Ok200 <==> !faults.open && !faults.add && !faults.dump
    ensures status == Ok200 ==>
      resp.isOk && resp.message.None? && resp.Lifetime() == DefaultLifetime &&
      file.contents == old(file.contents) + {NewRecord(clientInfo, DefaultLifetime, now)}
    ensures status != Ok200 ==>
      status == InternalServerError500 && !resp.isOk && resp.message == Some(DatabaseError) &&
      resp.Lifetime() == 0 && file.contents == old(file.contents)
  {
    var clientLifetime := DefaultLifetime;
    var echo := PostClientInfoResponse.New(clientInfo.id, clientInfo.account, clientInfo.passwd);
    var handle := AutoFrom(file, faults.open);
    if handle.Err? {
      return InternalServerError500, echo.SetMessage(Some(DatabaseError));
    }
    var db := handle.value;
    var added := db.AddItem(NewRecord(clientInfo, clientLifetime, now), faults.add);
    if added.Err? {
      return InternalServerError500, echo.SetMessage(Some(DatabaseError));
    }
    var dumped := db.DumpDb(faults.dump);
    if dumped.Err? {
      return InternalServerError500, echo.SetMessage(Some(DatabaseError));
    }
    status, resp := Ok200, echo.SetOk(true).SetLifetime(clientLifetime);
  }
}
