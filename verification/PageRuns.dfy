/**
 Whole runs of the physical page allocator: any sequence of requests and releases.
 */
module PageRuns {
  import opened Basics
  import opened PageAllocator

  /** The state after the first `k` calls. */
  ghost function StateAt(v: Version, rs: seq<Region>, s: Pages, calls: seq<Call>, k: nat): (s': Pages)
    requires |s.words| == 0x8000 && k <= |calls|
    ensures |s'.words| == 0x8000
    decreases k
  {
    if k == 0 then s else StateAt(v, rs, Do(v, rs, s, calls[0]).0, calls[1..], k - 1)
  }

  ghost predicate AlwaysInOrder(v: Version, rs: seq<Region>, s: Pages, calls: seq<Call>)
    requires |s.words| == 0x8000
  {
    forall k :: 0 <= k <= |calls| ==> InOrder(v, StateAt(v, rs, s, calls, k))
  }

  /** The pages that the calls grant; 0 for a release and for a request that fails. */
  ghost function Grants(v: Version, rs: seq<Region>, s: Pages, calls: seq<Call>): (ps: seq<nat>)
    requires |s.words| == 0x8000
    ensures |ps| == |calls|
    decreases |calls|
  {
    if calls == [] then []
    else
      var (s', p) := Do(v, rs, s, calls[0]);
      [p] + Grants(v, rs, s', calls[1..])
  }

  /** No release of the run takes the bit of another page that is granted at that moment. */
  ghost predicate Harmless(v: Version, rs: seq<Region>, s: Pages, calls: seq<Call>)
    requires |s.words| == 0x8000
    decreases |calls|
  {
    calls == [] || (!Harmful(v, rs, s, calls[0]) && Harmless(v, rs, Do(v, rs, s, calls[0]).0, calls[1..]))
  }

  /** As documented every run is harmless. */
  lemma {:induction false} DocumentedRuns(rs: seq<Region>, s: Pages, calls: seq<Call>)
    requires |s.words| == 0x8000
    ensures Harmless(Documented, rs, s, calls)
    decreases |calls|
  {
    hide Harmful, Do;
    if calls != [] {
      DocumentedIsHarmless(rs, s, calls[0]);
      DocumentedRuns(rs, Do(Documented, rs, s, calls[0]).0, calls[1..]);
    }
  }

  lemma CallKeepsIff(v: Version, rs: seq<Region>, s: Pages, c: Call)
    requires InOrder(v, s)
    ensures InOrder(v, Do(v, rs, s, c).0) <==> !Harmful(v, rs, s, c)
  {
    hide InOrder, Do;
    match c
    case Req => RequestKeeps(v, rs, s);
    case Rel(n) => ReleaseKeepsIff(v, rs, s, n);
  }

  lemma {:induction false} HarmlessStays(v: Version, rs: seq<Region>, s: Pages, calls: seq<Call>, k: nat)
    requires InOrder(v, s) && Harmless(v, rs, s, calls) && k <= |calls|
    ensures InOrder(v, StateAt(v, rs, s, calls, k))
    decreases k
  {
    hide InOrder, Do, Harmful;
    if k > 0 {
      CallKeepsIff(v, rs, s, calls[0]);
      HarmlessStays(v, rs, Do(v, rs, s, calls[0]).0, calls[1..], k - 1);
    }
  }

  lemma {:induction false} InOrderMeansHarmless(v: Version, rs: seq<Region>, s: Pages, calls: seq<Call>)
    requires InOrder(v, s) && AlwaysInOrder(v, rs, s, calls)
    ensures Harmless(v, rs, s, calls)
    decreases |calls|
  {
    hide InOrder, Do, Harmful;
    if calls != [] {
      var s', rest := Do(v, rs, s, calls[0]).0, calls[1..];
      CallKeepsIff(v, rs, s, calls[0]);
      forall k | 0 <= k <= |rest|
        ensures InOrder(v, StateAt(v, rs, s', rest, k))
      {
        assert InOrder(v, StateAt(v, rs, s, calls, k + 1));
      }
      assert StateAt(v, rs, s', rest, 0) == s';
      InOrderMeansHarmless(v, rs, s', rest);
    }
  }

  /**
   The granted pages are marked and distinct in every state of a run if and only if the run is
   harmless.
   */
  lemma InOrderIffHarmless(v: Version, rs: seq<Region>, s: Pages, calls: seq<Call>)
    requires InOrder(v, s)
    ensures AlwaysInOrder(v, rs, s, calls) <==> Harmless(v, rs, s, calls)
  {
    hide InOrder, Harmless;
    if Harmless(v, rs, s, calls) {
      forall k | 0 <= k <= |calls|
        ensures InOrder(v, StateAt(v, rs, s, calls, k))
      {
        HarmlessStays(v, rs, s, calls, k);
      }
    } else if AlwaysInOrder(v, rs, s, calls) {
      InOrderMeansHarmless(v, rs, s, calls);
    }
  }

  /** The first call of a harmless run: what it grants was not held and is now. */
  lemma FirstCall(v: Version, rs: seq<Region>, s: Pages, calls: seq<Call>)
    requires InOrder(v, s) && Harmless(v, rs, s, calls) && calls != []
    ensures var (s', p) := Do(v, rs, s, calls[0]);
      && InOrder(v, s') && Harmless(v, rs, s', calls[1..])
      && Grants(v, rs, s, calls) == [p] + Grants(v, rs, s', calls[1..])
      && (p != 0 ==> FIRST <= p < PAGES && p !in s.held && p in s'.held)
      && forall h :: h in s.held && h < PAGES && calls[0] != Rel(h) ==> h in s'.held
  {
    hide Releasable, Marked, InOrder, Harmful;
    RequestKeeps(v, rs, s);
    CallKeepsIff(v, rs, s, calls[0]);
  }

  /** A page that is held is granted again only after it was given back. */
  lemma {:induction false} HeldIsNotGranted(v: Version, rs: seq<Region>, s: Pages, calls: seq<Call>, p: nat, j: nat)
    requires InOrder(v, s) && Harmless(v, rs, s, calls) && p in s.held
    requires j < |calls| && 0 < p < PAGES && Grants(v, rs, s, calls)[j] == p
    ensures Rel(p) in calls[..j]
    decreases |calls|
  {
    hide Do, InOrder, Harmless, Grants;
    FirstCall(v, rs, s, calls);
    if j > 0 && calls[0] == Rel(p) {
      assert calls[..j][0] == Rel(p);
    } else if j > 0 {
      HeldIsNotGranted(v, rs, Do(v, rs, s, calls[0]).0, calls[1..], p, j - 1);
      assert calls[1..][..j - 1] == calls[..j][1..];
    }
  }

  lemma {:induction false} HarmlessGrants(v: Version, rs: seq<Region>, s: Pages, calls: seq<Call>, i: nat, j: nat, p: nat)
    requires InOrder(v, s) && Harmless(v, rs, s, calls) && i < j < |calls|
    requires Grants(v, rs, s, calls)[i] == p && Grants(v, rs, s, calls)[j] == p && p != 0
    ensures p < PAGES && Rel(p) in calls[i + 1..j]
    decreases |calls|
  {
    hide Do, InOrder, Harmless, Grants;
    FirstCall(v, rs, s, calls);
    var s', rest := Do(v, rs, s, calls[0]).0, calls[1..];
    if i == 0 {
      HeldIsNotGranted(v, rs, s', rest, p, j - 1);
      assert rest[..j - 1] == calls[1..j];
    } else {
      HarmlessGrants(v, rs, s', rest, i - 1, j - 1, p);
      assert rest[i..j - 1] == calls[i + 1..j];
    }
  }

  /**
   Over every harmless run, which as documented is every run, a page that two calls grant is given
   back in between.
   */
  lemma GrantedOnce(v: Version, rs: seq<Region>, s: Pages, calls: seq<Call>, i: nat, j: nat)
    requires InOrder(v, s) && (v == Documented || Harmless(v, rs, s, calls)) && i < j < |calls|
    requires Grants(v, rs, s, calls)[i] == Grants(v, rs, s, calls)[j] != 0
    ensures Grants(v, rs, s, calls)[i] < PAGES && Rel(Grants(v, rs, s, calls)[i]) in calls[i + 1..j]
  {
    hide InOrder, Harmless, Grants;
    if v == Documented {
      DocumentedRuns(rs, s, calls);
    }
    HarmlessGrants(v, rs, s, calls, i, j, Grants(v, rs, s, calls)[i]);
  }

  /** Any sequence of calls on the bitmap makes these grants and ends in this state. */
  method Replay(a: PageAllocator, calls: seq<Call>) returns (addrs: seq<nat>)
    requires a.Sized()
    modifies a, a.bits
    ensures a.Sized() && a.Now() == StateAt(a.bits.v, a.rs, old(a.Now()), calls, |calls|)
    ensures |addrs| == |calls| && forall i :: 0 <= i < |calls| ==>
      addrs[i] == Grants(a.bits.v, a.rs, old(a.Now()), calls)[i] * PAGE
    ensures old(a.Valid()) && a.bits.v == Documented ==> a.Valid()
    decreases |calls|
  {
    hide Regions, InOrder, Releasable, Marked, Lowest, BitAt, Slot, Harmful;
    if calls == [] {
      return [];
    }
    var addr := 0;
    match calls[0] {
      case Req => addr := a.ReqPage();
      case Rel(n) => a.RelPage(n);
    }
    addrs := Replay(a, calls[1..]);
    addrs := [addr] + addrs;
  }
}
