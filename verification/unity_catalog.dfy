/** The host of the Skyflow HTTP connection (databricks_ops/unity_catalog.py,
    `setup_skyflow_connections`): the vault URL with its scheme removed. */
module UnityCatalog {
  import opened Strings

  /** `vault_url.replace("https://", "").replace("http://", "")`: every
      occurrence of either scheme is removed, not only a leading one. */
  function ConnectionHost(vaultUrl: string): (host: string) {
    Replace(Replace(vaultUrl, "https://", ""), "http://", "")
  }

  /** A vault URL with either scheme in front of a host holding no scheme
      gives back that host, and a bare host is kept as it is. */
  lemma ConnectionHostStripsScheme(host: string)
    requires !Contains(host, "https://") && !Contains(host, "http://")
    ensures ConnectionHost("https://" + host) == host
    ensures ConnectionHost("http://" + host) == host
    ensures ConnectionHost(host) == host
  {
    ReplaceAbsent(host, "https://", "");
    ReplaceAbsent(host, "http://", "");
    ReplaceLeading("https://", host, "");
    assert "" + host == host;
    assert Replace("https://" + host, "https://", "") == host;
    NoHttpsAfterHttp(host);
    ReplaceAbsent("http://" + host, "https://", "");
    ReplaceLeading("http://", host, "");
  }

  /** `https://` does not begin inside a leading `http://`. */
  lemma NoHttpsAfterHttp(host: string)
    requires !Contains(host, "https://")
    ensures !Contains("http://" + host, "https://")
  {
    var s := "http://" + host;
    forall k | 0 <= k < 7
      ensures !IsPrefix("https://", s[k..])
    {
      if k == 0 {
        assert s[k..][4] == ':';
      } else {
        assert s[k..][0] == s[k] != 'h';
      }
    }
    ContainsAfterPrefix("http://", host, "https://");
  }

  /** No occurrence of `p` starts inside `a` nor lies in `h`: `p` does not
      occur in `a + h`. */
  lemma {:induction false} ContainsAfterPrefix(a: string, h: string, p: string)
    requires forall k :: 0 <= k < |a| ==> !IsPrefix(p, (a + h)[k..])
    requires !Contains(h, p)
    ensures !Contains(a + h, p)
    decreases |a|
  {
    if |a| > 0 {
      var s := a + h;
      assert s[0..] == s;
      assert s[1..] == a[1..] + h;
      forall k | 0 <= k < |a[1..]|
        ensures !IsPrefix(p, (a[1..] + h)[k..])
      {
        assert (a[1..] + h)[k..] == s[k + 1..];
      }
      ContainsAfterPrefix(a[1..], h, p);
    } else {
      assert a + h == h;
    }
  }
}
