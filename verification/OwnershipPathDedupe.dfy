/**
 The dedupe of control paths by their signature, the link ids joined with '>'
 (backend/src/ownership/ownership.service.ts:552-560).
 */
module OwnershipPathDedupe {
  import opened OwnershipLinks
  import opened OwnershipChains
  import opened OwnershipMass
  import opened OwnershipControlPaths
  import opened OwnershipPathSums

  /** `steps.map(s => s.linkId).join('>')` */
  function Signature(c: Chain): string
    decreases |c|, 0
  {
    if c == [] then "" else c[0].id + Joined(c[1..])
  }

  /** The further ids, each after a separator. */
  function Joined(c: Chain): string
    decreases |c|, 1
  {
    if c == [] then "" else ">" + Signature(c)
  }

  ghost predicate SignaturesDistinct(paths: seq<ControlPath>) {
    forall i, j :: 0 <= i < j < |paths| ==> Signature(paths[i].steps) != Signature(paths[j].steps)
  }

  method DedupeControlPaths(controlPaths: seq<ControlPath>) returns (deduped: seq<ControlPath>)
    ensures SignaturesDistinct(deduped)
    ensures forall p :: p in deduped ==> p in controlPaths
    ensures forall p :: p in controlPaths ==> exists q :: q in deduped && Signature(q.steps) == Signature(p.steps)
    ensures SignaturesDistinct(controlPaths) ==> deduped == controlPaths
  {
    hide Signature;
    var seenSignatures: set<string> := {};
    deduped := [];
    for i := 0 to |controlPaths|
      invariant SignaturesDistinct(deduped)
      invariant forall p :: p in deduped ==> p in controlPaths[..i] && Signature(p.steps) in seenSignatures
      invariant forall s :: s in seenSignatures ==> exists q :: q in deduped && Signature(q.steps) == s
      invariant forall p :: p in controlPaths[..i] ==> Signature(p.steps) in seenSignatures
      invariant SignaturesDistinct(controlPaths) ==> deduped == controlPaths[..i]
    {
      var p := controlPaths[i];
      var sig := Signature(p.steps);
      assert controlPaths[..i + 1] == controlPaths[..i] + [p];
      if sig in seenSignatures {
        continue;
      }
      seenSignatures := seenSignatures + {sig};
      ghost var before := deduped;
      deduped := deduped + [p];
      assert forall q :: q in deduped ==> q in before || q == p;
      assert p in deduped;
      assert forall q :: q in before ==> q in deduped;
    }
    assert controlPaths[..|controlPaths|] == controlPaths;
  }

  /** The ids carry no separator, as uuids do not. */
  ghost predicate PlainIds(links: seq<Link>) {
    forall l :: l in links ==> '>' !in l.id
  }

  ghost function FirstSeparator(s: string): nat {
    if s == "" || s[0] == '>' then 0 else 1 + FirstSeparator(s[1..])
  }

  lemma {:induction false} FirstSeparatorAfter(a: string, x: string)
    requires '>' !in a && (x == "" || x[0] == '>')
    ensures FirstSeparator(a + x) == |a|
  {
    if a == "" {
      assert a + x == x;
    } else {
      assert (a + x)[1..] == a[1..] + x;
      FirstSeparatorAfter(a[1..], x);
    }
  }

  lemma SplitAtSeparator(a: string, b: string, x: string, y: string)
    requires '>' !in a && '>' !in b && a + x == b + y
    requires (x == "" || x[0] == '>') && (y == "" || y[0] == '>')
    ensures a == b && x == y
  {
    FirstSeparatorAfter(a, x);
    FirstSeparatorAfter(b, y);
    assert (a + x)[..|a|] == a && (b + y)[..|b|] == b;
    assert (a + x)[|a|..] == x && (b + y)[|b|..] == y;
  }

  lemma SameFirstId(c: Chain, d: Chain)
    requires c != [] && d != [] && '>' !in c[0].id && '>' !in d[0].id
    requires Signature(c) == Signature(d)
    ensures c[0].id == d[0].id && Joined(c[1..]) == Joined(d[1..])
  {
    SplitAtSeparator(c[0].id, d[0].id, Joined(c[1..]), Joined(d[1..]));
  }

  lemma SameJoined(c: Chain, d: Chain)
    requires Joined(c) == Joined(d)
    ensures (c == [] <==> d == []) && Signature(c) == Signature(d)
  {
    if c != [] {
      assert Joined(c)[1..] == Signature(c) && Joined(d)[1..] == Signature(d);
    }
  }

  lemma {:induction false} SignatureIdentifies(links: seq<Link>, c: Chain, d: Chain)
    requires UniqueIds(links) && PlainIds(links) && c != [] && d != []
    requires forall l :: l in c || l in d ==> l in links
    requires Signature(c) == Signature(d)
    ensures c == d
    decreases |c|
  {
    hide Signature, Joined;
    assert c[0] in links && d[0] in links;
    SameFirstId(c, d);
    SameJoined(c[1..], d[1..]);
    if |c| > 1 {
      SignatureIdentifies(links, c[1..], d[1..]);
    }
    assert c == [c[0]] + c[1..] && d == [d[0]] + d[1..];
  }

  /** Recorded paths have pairwise different signatures: the dedupe never removes one. */
  lemma DedupeRemovesNothing(links: seq<Link>, root: string)
    requires UniqueIds(links) && PlainIds(links)
    ensures SignaturesDistinct(AllPaths(links, root))
  {
    hide Recorded, Signature, SomeIncomplete, WalkOwn, WalkControl, IsChain;
    var chains := Recorded(links, root, WALK_CHAIN_LENGTH, 0);
    var paths := AllPaths(links, root);
    RecordedDistinct(links, root, WALK_CHAIN_LENGTH, 0);
    forall i, j | 0 <= i < j < |paths|
      ensures Signature(paths[i].steps) != Signature(paths[j].steps)
    {
      assert paths[i].steps == chains[i] && paths[j].steps == chains[j];
      RecordedIsOfLinks(links, root, chains[i]);
      RecordedIsOfLinks(links, root, chains[j]);
      if Signature(chains[i]) == Signature(chains[j]) {
        SignatureIdentifies(links, chains[i], chains[j]);
      }
    }
  }

  lemma RecordedIsOfLinks(links: seq<Link>, root: string, c: Chain)
    requires c in Recorded(links, root, WALK_CHAIN_LENGTH, 0)
    ensures c != [] && forall l :: l in c ==> l in links
  {
    RecordedAreChains(links, root, WALK_CHAIN_LENGTH, 0, c);
    ChainLinksAreLinks(links, root, c);
  }
}
