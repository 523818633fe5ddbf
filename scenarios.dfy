/** End-to-end runs of the registry against one dumps file: registration,
    lookup and reaping composed through the handlers' and the reaper's own
    contracts. */
module Scenarios {
  import opened Common
  import opened UtilsClient
  import opened UtilsServer
  import opened Storage
  import opened Restful
  import Agent

  const NoFaults := PostFaults(false, false, false)
  const NoCleanFaults := CleanFaults(false, false, false, false)

  /** An unprotected lease: registered, visible without a password (the
      lookup confirms presence but discloses no record), reaped once the
      clock passes its lifetime, and then not found. */
  method UnprotectedLeaseLifecycle(sha256: Digest, id: U128, ip: IpAddr)
      returns (posted: StatusCode, granted: U64, found: GetClientInfoResponse,
               reaped: CleanOutcome, afterwards: StatusCode)
    ensures posted == Ok200 && granted == DefaultLifetime
    ensures found.isOk && found.data.None?
    ensures reaped == Done
    ensures afterwards == NotFound404
  {
    var file := new DumpFile({});
    var info := SetIps(Builder(id, "alice", None, sha256), [ip]);
    var resp;
    posted, resp := PostClientInfo(file, info, 0, NoFaults);
    granted := resp.Lifetime();
    var lease := NewRecord(info, DefaultLifetime, 0);
    assert file.contents == {lease};

    var status;
    ghost var lookup;
    status, found, lookup := GetClientInfo(file, GetClientInfoParams("alice", None), sha256, false);

    ghost var selected;
    reaped, selected := CleanOutdated(file, DefaultLifetime, DefaultLifetime * MillisPerSecond + 1, NoCleanFaults);
    assert HasLifetime({lease}, DefaultLifetime) by { assert lease in {lease}; }
    assert file.contents == {};

    var gone;
    afterwards, gone, lookup := GetClientInfo(file, GetClientInfoParams("alice", None), sha256, false);
  }

  /** A protected lease: the right password discloses the record, a wrong
      one or none is refused with 403. The digest is any function that tells
      the two passwords apart. */
  method ProtectedLeaseLookups(sha256: Digest, id: U128, ip: IpAddr)
      returns (right: GetClientInfoResponse, wrongStatus: StatusCode, missingStatus: StatusCode)
    requires sha256("wrong") != sha256("secret")
    ensures right.isOk && right.data.Some? && right.data.value.account == "bob"
    ensures wrongStatus == Forbidden403 && missingStatus == Forbidden403
  {
    var file := new DumpFile({});
    var info := SetIps(Builder(id, "bob", Some("secret"), sha256), [ip]);
    var posted, resp := PostClientInfo(file, info, 0, NoFaults);
    assert file.contents == {NewRecord(info, DefaultLifetime, 0)};

    var status, refused, missing;
    ghost var lookup;
    status, right, lookup := GetClientInfo(file, GetClientInfoParams("bob", Some("secret")), sha256, false);
    wrongStatus, refused, lookup := GetClientInfo(file, GetClientInfoParams("bob", Some("wrong")), sha256, false);
    missingStatus, missing, lookup := GetClientInfo(file, GetClientInfoParams("bob", None), sha256, false);
  }

  /** Registration always creates: two successful posts of records with
      different session ids leave two leases, and nothing else changes. */
  method RegisterTwice(file: DumpFile, a: ClientInfo, b: ClientInfo, t1: int, t2: int)
      returns (first: StatusCode, second: StatusCode)
    requires a.id != b.id
    modifies file
    ensures first == Ok200 && second == Ok200
    ensures file.contents == old(file.contents) + {NewRecord(a, DefaultLifetime, t1), NewRecord(b, DefaultLifetime, t2)}
    ensures NewRecord(a, DefaultLifetime, t1) != NewRecord(b, DefaultLifetime, t2)
  {
    var r1, r2;
    first, r1 := PostClientInfo(file, a, t1, NoFaults);
    second, r2 := PostClientInfo(file, b, t2, NoFaults);
  }

  /** A registration the server answers with 500 (here the dump fails) still
      yields a decodable response; its lifetime is 0, so the client's next
      post follows without any pause, and the store is unchanged. */
  method FailedPostRepostsAtOnce(file: DumpFile, info: ClientInfo, now: int)
      returns (status: StatusCode, pauseMs: nat)
    modifies file
    ensures status == InternalServerError500 && pauseMs == 0
    ensures file.contents == old(file.contents)
  {
    var resp;
    status, resp := PostClientInfo(file, info, now, PostFaults(false, false, true));
    pauseMs := Agent.SleepAfterPost(Some(resp));
  }
}
