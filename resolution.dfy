/** The ordered, all-or-nothing resolution of network-interface ids to private IP
    addresses done by the handler's loop (cdk/index.ts:142-146). */
module Resolution {
  import opened Wrappers

  /** Id `k` is the first one whose lookup fails. */
  ghost predicate FirstFailure(ids: seq<string>, addresses: string -> Result<string, string>, k: int)
  {
    && 0 <= k < |ids|
    && addresses(ids[k]).Failure?
    && forall j :: 0 <= j < k ==> addresses(ids[j]).Success?
  }

  /** The addresses of `ids` in input order, or the error of the first lookup that fails. */
  function Resolve(ids: seq<string>, addresses: string -> Result<string, string>): (r: Result<seq<string>, string>)
  {
    if ids == [] then Success([])
    else
      match addresses(ids[0])
      case Failure(e) => Failure(e)
      case Success(ip) =>
        match Resolve(ids[1..], addresses)
        case Failure(e) => Failure(e)
        case Success(ips) => Success([ip] + ips)
  }

  /** Resolution succeeds exactly when every lookup does, and then yields one address
      per id, each that id's own, in input order. */
  lemma {:induction false} ResolveInOrder(ids: seq<string>, addresses: string -> Result<string, string>)
    ensures Resolve(ids, addresses).Success? <==> forall i :: 0 <= i < |ids| ==> addresses(ids[i]).Success?
    ensures Resolve(ids, addresses).Success? ==> |Resolve(ids, addresses).value| == |ids|
    ensures Resolve(ids, addresses).Success? ==>
      forall i :: 0 <= i < |ids| ==> Resolve(ids, addresses).value[i] == addresses(ids[i]).value
  {
    if ids != [] {
      ResolveInOrder(ids[1..], addresses);
      if addresses(ids[0]).Success? && Resolve(ids[1..], addresses).Success? {
        var r := Resolve(ids, addresses).value;
        forall i | 0 <= i < |ids| ensures r[i] == addresses(ids[i]).value {
          if i > 0 { assert ids[i] == ids[1..][i - 1]; }
        }
      } else if addresses(ids[0]).Success? {
        var i :| 0 <= i < |ids[1..]| && addresses(ids[1..][i]).Failure?;
        assert addresses(ids[i + 1]).Failure?;
      }
    }
  }

  /** The ids whose lookup is attempted: all of them up to and including the first
      one that fails. */
  function LookedUp(ids: seq<string>, addresses: string -> Result<string, string>): (q: seq<string>)
    ensures q <= ids
    ensures forall j :: 0 <= j < |q| - 1 ==> addresses(ids[j]).Success?
    ensures |q| < |ids| ==> |q| > 0 && addresses(ids[|q| - 1]).Failure?
    ensures Resolve(ids, addresses).Success? ==> q == ids
  {
    if ids == [] then []
    else if addresses(ids[0]).Failure? then [ids[0]]
    else [ids[0]] + LookedUp(ids[1..], addresses)
  }

  /** A failure reports the error of the first failing lookup. */
  lemma {:induction false} ResolveFailsAtFirst(ids: seq<string>, addresses: string -> Result<string, string>)
    requires Resolve(ids, addresses).Failure?
    ensures exists k :: FirstFailure(ids, addresses, k) && Resolve(ids, addresses).error == addresses(ids[k]).error
  {
    if addresses(ids[0]).Failure? {
      assert FirstFailure(ids, addresses, 0);
    } else {
      ResolveFailsAtFirst(ids[1..], addresses);
      var k :| FirstFailure(ids[1..], addresses, k) && Resolve(ids[1..], addresses).error == addresses(ids[1..][k]).error;
      assert FirstFailure(ids, addresses, k + 1);
    }
  }

  /** The resolution of `ids` stops at its first failure. */
  lemma {:induction false} FirstFailureSplits(ids: seq<string>, addresses: string -> Result<string, string>, k: int)
    requires FirstFailure(ids, addresses, k)
    ensures Resolve(ids, addresses) == Failure(addresses(ids[k]).error)
    ensures LookedUp(ids, addresses) == ids[..k + 1]
  {
    if k > 0 {
      assert FirstFailure(ids[1..], addresses, k - 1);
      FirstFailureSplits(ids[1..], addresses, k - 1);
      assert [ids[0]] + ids[1..][..k] == ids[..k + 1];
    } else {
      assert ids[..1] == [ids[0]];
    }
  }

  /** Once a prefix fails, resolving any continuation of it fails the same way. */
  lemma {:induction false} ResolvePrefixFails(p: seq<string>, s: seq<string>, addresses: string -> Result<string, string>)
    requires Resolve(p, addresses).Failure?
    ensures Resolve(p + s, addresses) == Resolve(p, addresses)
  {
    var ps := p + s;
    assert ps[0] == p[0] && ps[1..] == p[1..] + s;
    if addresses(p[0]).Success? {
      ResolvePrefixFails(p[1..], s, addresses);
    }
  }

  /** After a prefix that resolves, a concatenation resolves as its second part does,
      its addresses following the prefix's. */
  lemma {:induction false} ResolveAfterSuccess(p: seq<string>, s: seq<string>, addresses: string -> Result<string, string>)
    requires Resolve(p, addresses).Success?
    ensures Resolve(s, addresses).Failure? ==> Resolve(p + s, addresses) == Resolve(s, addresses)
    ensures Resolve(s, addresses).Success? ==>
      Resolve(p + s, addresses) == Success(Resolve(p, addresses).value + Resolve(s, addresses).value)
  {
    if p == [] {
      assert p + s == s;
      if Resolve(s, addresses).Success? {
        assert [] + Resolve(s, addresses).value == Resolve(s, addresses).value;
      }
    } else {
      var ps := p + s;
      assert ps[0] == p[0] && ps[1..] == p[1..] + s;
      ResolveAfterSuccess(p[1..], s, addresses);
      if Resolve(s, addresses).Success? {
        var x, xs, ys := addresses(p[0]).value, Resolve(p[1..], addresses).value, Resolve(s, addresses).value;
        assert [x] + (xs + ys) == ([x] + xs) + ys;
      }
    }
  }

  /** The lookups for a concatenation reach the second part only if the first part
      resolves completely. */
  lemma {:induction false} LookedUpAppend(p: seq<string>, s: seq<string>, addresses: string -> Result<string, string>)
    ensures LookedUp(p + s, addresses) ==
      if Resolve(p, addresses).Success? then p + LookedUp(s, addresses) else LookedUp(p, addresses)
  {
    if p == [] {
      assert p + s == s;
    } else {
      var ps := p + s;
      assert ps[0] == p[0] && ps[1..] == p[1..] + s;
      if addresses(p[0]).Failure? {
        assert LookedUp(ps, addresses) == [p[0]];
        assert LookedUp(p, addresses) == [p[0]];
      } else {
        LookedUpAppend(p[1..], s, addresses);
        assert LookedUp(ps, addresses) == [p[0]] + LookedUp(p[1..] + s, addresses);
        assert LookedUp(p, addresses) == [p[0]] + LookedUp(p[1..], addresses);
        assert Resolve(p, addresses).Success? == Resolve(p[1..], addresses).Success?;
        if Resolve(p[1..], addresses).Success? {
          assert [p[0]] + (p[1..] + LookedUp(s, addresses)) == p + LookedUp(s, addresses);
        }
      }
    }
  }

  /** One more id after a prefix that resolved: its lookup is attempted, and its
      address appended or its error reported. */
  lemma ExtendByOne(p: seq<string>, x: string, addresses: string -> Result<string, string>)
    requires Resolve(p, addresses).Success?
    ensures addresses(x).Success? ==> Resolve(p + [x], addresses) == Success(Resolve(p, addresses).value + [addresses(x).value])
    ensures addresses(x).Failure? ==> Resolve(p + [x], addresses) == Failure(addresses(x).error)
    ensures LookedUp(p + [x], addresses) == p + [x]
  {
    ResolveAfterSuccess(p, [x], addresses);
    LookedUpAppend(p, [x], addresses);
    assert [x][1..] == [];
    if addresses(x).Success? {
      assert [addresses(x).value] + [] == [addresses(x).value];
    }
  }

  /** Once a prefix has failed, nothing after it is looked up or changes the outcome. */
  lemma StopAtFailure(p: seq<string>, s: seq<string>, addresses: string -> Result<string, string>)
    requires Resolve(p, addresses).Failure?
    ensures Resolve(p + s, addresses) == Resolve(p, addresses)
    ensures LookedUp(p + s, addresses) == LookedUp(p, addresses)
  {
    ResolvePrefixFails(p, s, addresses);
    LookedUpAppend(p, s, addresses);
  }

  /** Only the looked-up ids matter: two platforms that agree on them give the same
      resolution and the same lookups. */
  lemma {:induction false} ResolveDependsOnLookedUp(ids: seq<string>, a1: string -> Result<string, string>, a2: string -> Result<string, string>)
    requires forall id :: id in LookedUp(ids, a1) ==> a1(id) == a2(id)
    ensures Resolve(ids, a1) == Resolve(ids, a2)
    ensures LookedUp(ids, a1) == LookedUp(ids, a2)
  {
    if ids != [] {
      assert ids[0] in LookedUp(ids, a1);
      if a1(ids[0]).Success? {
        forall id | id in LookedUp(ids[1..], a1) ensures a1(id) == a2(id) {
          assert id in LookedUp(ids, a1);
        }
        ResolveDependsOnLookedUp(ids[1..], a1, a2);
      }
    }
  }
}
