/** The request and response values of the registry API (utils/src/server.rs).
    Each setter of the source consumes the value, overwrites one field and
    hands the value back: a record update here. */
module UtilsServer {
  import opened Common
  import opened UtilsClient

  /** The machine-readable reason carried by a failed response. */
  datatype ResponseMessage = NotFound | AlreadyOccupiedId | InvalidPassword | DatabaseError

  /** The query of a lookup: the account and, optionally, a password plaintext. */
  datatype GetClientInfoParams = GetClientInfoParams(account: string, passwd: Option<string>)

  datatype GetClientInfoResponse = GetClientInfoResponse(
    id: Option<U128>,
    account: string,
    passwd: Option<string>,
    isOk: bool,
    message: Option<ResponseMessage>,
    data: Option<ClientInfo>)
  {
    /** `GetClientInfoResponse::new`: the echoed fields, not ok, no message, no data. */
    static function New(id: Option<U128>, account: string, passwd: Option<string>): (r: GetClientInfoResponse)
      ensures r.id == id && r.account == account && r.passwd == passwd
      ensures !r.isOk && r.message.None? && r.data.None?
    {
      GetClientInfoResponse(id, account, passwd, false, None, None)
    }

    /** Sets `is_ok`; every other field is kept. */
    function SetOk(isOk: bool): (r: GetClientInfoResponse)
      ensures r.isOk == isOk
      ensures r == this.(isOk := r.isOk)
    {
      this.(isOk := isOk)
    }

    /** Sets `message`; every other field is kept. */
    function SetMessage(message: Option<ResponseMessage>): (r: GetClientInfoResponse)
      ensures r.message == message
      ensures r == this.(message := r.message)
    {
      this.(message := message)
    }

    /** Sets `id`; every other field is kept. */
    function SetId(id: Option<U128>): (r: GetClientInfoResponse)
      ensures r.id == id
      ensures r == this.(id := r.id)
    {
      this.(id := id)
    }

    /** Stores the record as present data; every other field is kept. */
    function SetData(data: ClientInfo): (r: GetClientInfoResponse)
      ensures r.data == Some(data)
      ensures r == this.(data := r.data)
    {
      this.(data := Some(data))
    }
  }

  datatype PostClientInfoResponse = PostClientInfoResponse(
    id: U128,
    account: string,
    passwd: Option<string>,
    isOk: bool,
    message: Option<ResponseMessage>,
    lifetime: U64)
  {
    /** `PostClientInfoResponse::new`: the echoed fields, not ok, no message, lifetime 0. */
    static function New(id: U128, account: string, passwd: Option<string>): (r: PostClientInfoResponse)
      ensures r.id == id && r.account == account && r.passwd == passwd
      ensures !r.isOk && r.message.None? && r.Lifetime() == 0
    {
      PostClientInfoResponse(id, account, passwd, false, None, 0)
    }

    /** Sets `is_ok`; every other field is kept. */
    function SetOk(isOk: bool): (r: PostClientInfoResponse)
      ensures r.isOk == isOk
      ensures r == this.(isOk := r.isOk)
    {
      this.(isOk := isOk)
    }

    /** Sets `message`; every other field is kept. */
    function SetMessage(message: Option<ResponseMessage>): (r: PostClientInfoResponse)
      ensures r.message == message
      ensures r == this.(message := r.message)
    {
      this.(message := message)
    }

    /** Sets `lifetime`; every other field is kept, and the getter reads it back. */
    function SetLifetime(lifetime: U64): (r: PostClientInfoResponse)
      ensures r.Lifetime() == lifetime
      ensures r == this.(lifetime := r.lifetime)
    {
      this.(lifetime := lifetime)
    }

    /** The getter `lifetime()`. */
    function Lifetime(): U64
    {
      lifetime
    }
  }

  /** Setters of different fields of a lookup response commute. */
  lemma GetSettersCommute(r: GetClientInfoResponse, ok: bool, m: Option<ResponseMessage>,
                          id: Option<U128>, d: ClientInfo)
    ensures r.SetOk(ok).SetMessage(m) == r.SetMessage(m).SetOk(ok)
    ensures r.SetOk(ok).SetId(id) == r.SetId(id).SetOk(ok)
    ensures r.SetOk(ok).SetData(d) == r.SetData(d).SetOk(ok)
    ensures r.SetMessage(m).SetId(id) == r.SetId(id).SetMessage(m)
    ensures r.SetMessage(m).SetData(d) == r.SetData(d).SetMessage(m)
    ensures r.SetId(id).SetData(d) == r.SetData(d).SetId(id)
  {
  }

  /** Setting a field of a lookup response twice keeps the last value. */
  lemma GetSettersLastWins(r: GetClientInfoResponse, ok1: bool, ok2: bool,
                           m1: Option<ResponseMessage>, m2: Option<ResponseMessage>,
                           id1: Option<U128>, id2: Option<U128>, d1: ClientInfo, d2: ClientInfo)
    ensures r.SetOk(ok1).SetOk(ok2) == r.SetOk(ok2)
    ensures r.SetMessage(m1).SetMessage(m2) == r.SetMessage(m2)
    ensures r.SetId(id1).SetId(id2) == r.SetId(id2)
    ensures r.SetData(d1).SetData(d2) == r.SetData(d2)
  {
  }

  /** Setters of different fields of a registration response commute. */
  lemma PostSettersCommute(r: PostClientInfoResponse, ok: bool, m: Option<ResponseMessage>, n: U64)
    ensures r.SetOk(ok).SetMessage(m) == r.SetMessage(m).SetOk(ok)
    ensures r.SetOk(ok).SetLifetime(n) == r.SetLifetime(n).SetOk(ok)
    ensures r.SetMessage(m).SetLifetime(n) == r.SetLifetime(n).SetMessage(m)
  {
  }

  /** Setting a field of a registration response twice keeps the last value. */
  lemma PostSettersLastWins(r: PostClientInfoResponse, ok1: bool, ok2: bool,
                            m1: Option<ResponseMessage>, m2: Option<ResponseMessage>, n1: U64, n2: U64)
    ensures r.SetOk(ok1).SetOk(ok2) == r.SetOk(ok2)
    ensures r.SetMessage(m1).SetMessage(m2) == r.SetMessage(m2)
    ensures r.SetLifetime(n1).SetLifetime(n2) == r.SetLifetime(n2)
  {
  }
}
