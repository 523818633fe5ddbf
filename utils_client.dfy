/** The presence record a client announces (utils/src/client.rs):
    identity, optional password digest and observed addresses. */
module UtilsClient {
  import opened Common

  /** An IPv4 address, as its 32 bits. */
  type Ipv4Addr = bv32

  /** An IPv6 address, as its 128 bits. */
  type Ipv6Addr = bv128

  /** Rust's `IpAddr`: either family. */
  datatype IpAddr = V4(v4: Ipv4Addr) | V6(v6: Ipv6Addr)

  /** The password digest (SHA-256 rendered as a hex string). It is a foreign
      crypto call, so it is a parameter: any deterministic function. */
  type Digest = string -> string

  datatype ClientInfo = ClientInfo(
    id: U128,
    account: string,
    passwd: Option<string>,
    ipv4s: seq<Ipv4Addr>,
    ipv6s: seq<Ipv6Addr>)
  {
    /** True exactly when the stored digest is the digest of `plaintext`;
        a record without a password accepts no plaintext at all. */
    function VerifyPasswd(plaintext: string, sha256: Digest): (ok: bool)
      ensures ok <==> passwd == Some(sha256(plaintext))
      ensures passwd.None? ==> !ok
    {
      match passwd
      case Some(p) => p == sha256(plaintext)
      case None => false
    }
  }

  /** `ClientInfo::new`: no password and no addresses yet. */
  function New(id: U128, account: string): (c: ClientInfo)
    ensures c.id == id && c.account == account
    ensures c.passwd.None?
    ensures c.ipv4s == [] && c.ipv6s == []
  {
    ClientInfo(id, account, None, [], [])
  }

  /** `ClientInfo::builder`: `New` with the digest of the plaintext, if any.
      The plaintext itself is never stored, and it verifies afterwards. */
  function Builder(id: U128, account: string, plaintext: Option<string>, sha256: Digest): (c: ClientInfo)
    ensures c == New(id, account).(passwd := c.passwd)
    ensures plaintext.None? ==> c.passwd.None?
    ensures plaintext.Some? ==> c.passwd == Some(sha256(plaintext.value))
    ensures plaintext.Some? ==> c.VerifyPasswd(plaintext.value, sha256)
  {
    var digest := match plaintext
      case Some(p) => Some(sha256(p))
      case None => None;
    New(id, account).(passwd := digest)
  }

  /** The IPv4 addresses of `ips`, in input order, duplicates kept. */
  function Ipv4sOf(ips: seq<IpAddr>): seq<Ipv4Addr>
  {
    if ips == [] then []
    else
      var last := ips[|ips| - 1];
      Ipv4sOf(ips[..|ips| - 1]) + (if last.V4? then [last.v4] else [])
  }

  /** The IPv6 addresses of `ips`, in input order, duplicates kept. */
  function Ipv6sOf(ips: seq<IpAddr>): seq<Ipv6Addr>
  {
    if ips == [] then []
    else
      var last := ips[|ips| - 1];
      Ipv6sOf(ips[..|ips| - 1]) + (if last.V6? then [last.v6] else [])
  }

  /** Every address lands in exactly one of the two lists. */
  lemma {:induction false} SplitCount(ips: seq<IpAddr>)
    ensures |Ipv4sOf(ips)| + |Ipv6sOf(ips)| == |ips|
  {
    if ips != [] {
      SplitCount(ips[..|ips| - 1]);
    }
  }

  /** Splitting distributes over concatenation: the order of the input is kept. */
  lemma {:induction false} SplitAppend(a: seq<IpAddr>, b: seq<IpAddr>)
    ensures Ipv4sOf(a + b) == Ipv4sOf(a) + Ipv4sOf(b)
    ensures Ipv6sOf(a + b) == Ipv6sOf(a) + Ipv6sOf(b)
  {
    if b == [] {
      assert a + b == a;
    } else {
      var b' := b[..|b| - 1];
      assert (a + b)[..|a + b| - 1] == a + b';
      SplitAppend(a, b');
    }
  }

  /** An address is in the IPv4 list exactly when it was given as an IPv4. */
  lemma {:induction false} Ipv4sOfMembers(ips: seq<IpAddr>, x: Ipv4Addr)
    ensures x in Ipv4sOf(ips) <==> V4(x) in ips
  {
    if ips != [] {
      var init := ips[..|ips| - 1];
      Ipv4sOfMembers(init, x);
      assert ips == init + [ips[|ips| - 1]];
    }
  }

  /** An address is in the IPv6 list exactly when it was given as an IPv6. */
  lemma {:induction false} Ipv6sOfMembers(ips: seq<IpAddr>, x: Ipv6Addr)
    ensures x in Ipv6sOf(ips) <==> V6(x) in ips
  {
    if ips != [] {
      var init := ips[..|ips| - 1];
      Ipv6sOfMembers(init, x);
      assert ips == init + [ips[|ips| - 1]];
    }
  }

  /** `ClientInfo::set_ips`: pushes each address onto the list of its family,
      in input order, without deduplication; nothing else changes. */
  method SetIps(c: ClientInfo, ips: seq<IpAddr>) returns (r: ClientInfo)
    ensures r.id == c.id && r.account == c.account && r.passwd == c.passwd
    ensures r.ipv4s == c.ipv4s + Ipv4sOf(ips)
    ensures r.ipv6s == c.ipv6s + Ipv6sOf(ips)
    ensures |r.ipv4s| + |r.ipv6s| == |c.ipv4s| + |c.ipv6s| + |ips|
  {
    r := c;
    for i := 0 to |ips|
      invariant r.id == c.id && r.account == c.account && r.passwd == c.passwd
      invariant r.ipv4s == c.ipv4s + Ipv4sOf(ips[..i])
      invariant r.ipv6s == c.ipv6s + Ipv6sOf(ips[..i])
    {
      assert ips[..i + 1][..i] == ips[..i];
      match ips[i]
      case V4(a) =>
        r := r.(ipv4s := r.ipv4s + [a]);
      case V6(a) =>
        r := r.(ipv6s := r.ipv6s + [a]);
    }
    assert ips[..|ips|] == ips;
    SplitCount(ips);
  }
}
