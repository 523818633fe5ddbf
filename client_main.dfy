/** The client agent's two loops (client/src/main.rs, `main`): probe the
    server until it answers, then register forever, pausing for the granted
    lifetime after each accepted registration and for a fixed second after
    each failed one. The environment's answers are given as sequences, one
    entry per pass, and pauses are recorded in milliseconds instead of slept. */
module Agent {
  import opened Common
  import opened UtilsLib
  import opened UtilsClient
  import opened UtilsServer
  import opened ClientConfig

  /** The fixed retry pause, in milliseconds (one second). */
  const SleepMs: nat := 1000

  /** The probe URL: the configured API URL followed by `/server`. */
  function ServerInfoUrl(apiUrl: string): (url: string)
    ensures |url| == |apiUrl| + 7
    ensures url[..|apiUrl|] == apiUrl && url[|apiUrl|..] == "/server"
  {
    apiUrl + "/server"
  }

  /** The registration URL: the configured API URL followed by `/client/post`. */
  function PostUrl(apiUrl: string): (url: string)
    ensures |url| == |apiUrl| + 12
    ensures url[..|apiUrl|] == apiUrl && url[|apiUrl|..] == "/client/post"
  {
    apiUrl + "/client/post"
  }

  /** The probe loop over the server's first `|replies|` answers (`None` is
      a failed request): one request per answer, a one-second pause after
      each failure, and out at the first success. `requested` lists the URL
      of each request made. */
  method ProbeServer(apiUrl: string, replies: seq<Option<AppInfo>>)
      returns (serverInfo: Option<AppInfo>, requested: seq<string>, delays: seq<nat>)
    ensures |requested| <= |replies|
    ensures forall i :: 0 <= i < |requested| ==> requested[i] == ServerInfoUrl(apiUrl)
    ensures serverInfo.Some? ==> |requested| >= 1 && replies[|requested| - 1] == serverInfo
    ensures serverInfo.None? ==> |requested| == |replies|
    ensures forall i :: 0 <= i < |requested| && replies[i].Some? ==> i == |requested| - 1 && serverInfo.Some?
    ensures |delays| == if serverInfo.Some? then |requested| - 1 else |requested|
    ensures forall i :: 0 <= i < |delays| ==> delays[i] == SleepMs
  {
    serverInfo, requested, delays := None, [], [];
    var i := 0;
    while i < |replies|
      invariant 0 <= i <= |replies|
      invariant |requested| == |delays| == i
      invariant forall k :: 0 <= k < i ==>
        requested[k] == ServerInfoUrl(apiUrl) && replies[k].None? && delays[k] == SleepMs
    {
      requested := requested + [ServerInfoUrl(apiUrl)];
      match replies[i]
      case Some(info) =>
        serverInfo := Some(info);
        return;
      case None =>
        delays := delays + [SleepMs];
        i := i + 1;
    }
  }

  /** The sum of a list of pauses. */
  function Total(ms: seq<nat>): nat
  {
    if ms == [] then 0 else Total(ms[..|ms| - 1]) + ms[|ms| - 1]
  }

  /** Pauses that are all `d` add up to their number times `d`. */
  lemma {:induction false} TotalOfRepeated(ms: seq<nat>, d: nat)
    requires forall i :: 0 <= i < |ms| ==> ms[i] == d
    ensures Total(ms) == |ms| * d
  {
    if ms != [] {
      TotalOfRepeated(ms[..|ms| - 1], d);
    }
  }

  /** Retry convergence: a server that fails `n` probes and then answers is
      reached on attempt `n + 1`, after exactly `n` one-second pauses. */
  method ProbeAfterFailures(apiUrl: string, n: nat, info: AppInfo, later: seq<Option<AppInfo>>)
      returns (serverInfo: Option<AppInfo>, attempts: nat, waitedMs: nat)
    ensures serverInfo == Some(info)
    ensures attempts == n + 1
    ensures waitedMs == n * SleepMs
  {
    var replies := seq(n, _ => None) + [Some(info)] + later;
    var requested, delays;
    serverInfo, requested, delays := ProbeServer(apiUrl, replies);
    assert replies[n].Some?;
    attempts := |requested|;
    TotalOfRepeated(delays, SleepMs);
    waitedMs := Total(delays);
  }

  /** What the environment supplies to one registration pass: the random id
      drawn for it, the local address found (`None`: the lookup failed), and
      the server's reply (`None`: the post failed). */
  datatype RegisterTick = RegisterTick(randomId: U128, myIp: Option<IpAddr>, reply: Option<PostClientInfoResponse>)

  /** One registration pass as observed: where it posted, what, and how long
      it then paused (milliseconds). */
  datatype Attempt = Attempt(url: string, info: ClientInfo, sleepMs: nat)

  /** The record a pass posts: built afresh from the pass's id, the
      configured account and password, and the single address found. */
  function PostedInfo(config: Config, sha256: Digest, id: U128, ip: IpAddr): ClientInfo
  {
    Builder(id, config.account, config.passwd, sha256).(ipv4s := Ipv4sOf([ip]), ipv6s := Ipv6sOf([ip]))
  }

  /** The pause after a post: whenever a response was decoded, the lifetime
      it carries, in whole seconds, whatever its status (a 500 response
      carries lifetime 0, so the client posts again at once); one second
      when the post got no response. */
  function SleepAfterPost(reply: Option<PostClientInfoResponse>): (ms: nat)
    ensures reply.Some? ==> ms % MillisPerSecond == 0 && ms / MillisPerSecond == reply.value.Lifetime()
    ensures reply.None? ==> ms == SleepMs
  {
    match reply
    case Some(resp) => resp.Lifetime() * MillisPerSecond
    case None => SleepMs
  }

  /** What a posted record carries: the pass's own id, the account, the
      digest of the configured password (which then verifies), and the one
      address found, in the list of its family. */
  lemma PostedInfoContents(config: Config, sha256: Digest, id: U128, ip: IpAddr)
    ensures var c := PostedInfo(config, sha256, id, ip);
      && c.id == id && c.account == config.account
      && (config.passwd.None? <==> c.passwd.None?)
      && (config.passwd.Some? ==> c.VerifyPasswd(config.passwd.value, sha256))
      && |c.ipv4s| + |c.ipv6s| == 1
      && (ip.V4? ==> c.ipv4s == [ip.v4])
      && (ip.V6? ==> c.ipv6s == [ip.v6])
  {
    assert [ip][..0] == [];
    SplitCount([ip]);
  }

  /** The registration loop over its first `|ticks|` passes. Each pass finds
      the address, builds a NEW record with that pass's random id, posts it
      and pauses. No reply leaves the loop; a failed address lookup aborts
      the process (the source's `expect`). */
  method RegistrationLoop(config: Config, sha256: Digest, ticks: seq<RegisterTick>)
      returns (attempts: seq<Attempt>, aborted: bool)
    ensures |attempts| <= |ticks|
    ensures aborted <==> |attempts| < |ticks|
    ensures aborted ==> ticks[|attempts|].myIp.None?
    ensures forall i :: 0 <= i < |attempts| ==> ticks[i].myIp.Some?
    ensures forall i :: 0 <= i < |attempts| ==>
      attempts[i] == Attempt(PostUrl(config.apiUrl),
                             PostedInfo(config, sha256, ticks[i].randomId, ticks[i].myIp.value),
                             SleepAfterPost(ticks[i].reply))
  {
    attempts, aborted := [], false;
    var i := 0;
    while i < |ticks|
      invariant 0 <= i <= |ticks|
      invariant |attempts| == i
      invariant forall k :: 0 <= k < i ==> ticks[k].myIp.Some?
      invariant forall k :: 0 <= k < i ==>
        attempts[k] == Attempt(PostUrl(config.apiUrl),
                               PostedInfo(config, sha256, ticks[k].randomId, ticks[k].myIp.value),
                               SleepAfterPost(ticks[k].reply))
    {
      var tick := ticks[i];
      if tick.myIp.None? {
        aborted := true;
        return;
      }
      var myIps := [tick.myIp.value];
      var myInfo := SetIps(Builder(tick.randomId, config.account, config.passwd, sha256), myIps);
      attempts := attempts + [Attempt(PostUrl(config.apiUrl), myInfo, SleepAfterPost(tick.reply))];
      i := i + 1;
    }
  }

  /** The agent after loading its configuration: the probe loop gates the
      registration loop, which starts only once the server has answered and
      then always runs, until a failed address lookup or the end of `ticks`.
      `requested` lists the probe requests made. */
  method RunAgent(config: Config, sha256: Digest, replies: seq<Option<AppInfo>>, ticks: seq<RegisterTick>)
      returns (serverInfo: Option<AppInfo>, requested: seq<string>, probeDelays: seq<nat>, attempts: seq<Attempt>)
    // the probe
    ensures |requested| <= |replies|
    ensures forall i :: 0 <= i < |requested| ==> requested[i] == ServerInfoUrl(config.apiUrl)
    ensures serverInfo.None? ==> attempts == [] && |requested| == |probeDelays| == |replies|
    ensures serverInfo.Some? ==>
      |requested| >= 1 && replies[|requested| - 1] == serverInfo && |probeDelays| == |requested| - 1
    ensures forall i :: 0 <= i < |probeDelays| ==> replies[i].None? && probeDelays[i] == SleepMs
    // the registration loop, once the probe succeeded
    ensures |attempts| <= |ticks|
    ensures serverInfo.Some? ==> |attempts| == |ticks| || ticks[|attempts|].myIp.None?
    ensures forall i :: 0 <= i < |attempts| ==>
      && ticks[i].myIp.Some?
      && attempts[i] == Attempt(PostUrl(config.apiUrl),
                                PostedInfo(config, sha256, ticks[i].randomId, ticks[i].myIp.value),
                                SleepAfterPost(ticks[i].reply))
  {
    serverInfo, requested, probeDelays := ProbeServer(config.apiUrl, replies);
    attempts := [];
    if serverInfo.Some? {
      var aborted;
      attempts, aborted := RegistrationLoop(config, sha256, ticks);
    }
  }
}
