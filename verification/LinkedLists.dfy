/** Singly linked lists threaded through memory.  `mem` maps the address of a word to its value; a
    node's link word is stored at the node's own address, and 0 is the null pointer. */
module LinkedLists {
  import opened Basics

  /** The link that leads to position `i`: the address of the node there, or null past the end. */
  function LinkTo(s: seq<nat>, i: nat): nat {
    if i < |s| then s[i] else 0
  }

  /** Following links from `head` visits exactly the nodes of `s`, in order. */
  ghost predicate Chain(mem: map<nat, nat>, head: nat, s: seq<nat>) {
    && head == LinkTo(s, 0)
    && forall i :: 0 <= i < |s| ==> s[i] != 0 && s[i] in mem && mem[s[i]] == LinkTo(s, i + 1)
  }

  function Cut(s: seq<nat>, k: nat): seq<nat>
    requires k < |s|
  {
    s[..k] + s[k + 1..]
  }

  lemma ChainPush(mem: map<nat, nat>, head: nat, s: seq<nat>, p: nat)
    requires Chain(mem, head, s) && Distinct(s) && p != 0 && p !in s
    ensures Chain(mem[p := head], p, [p] + s) && Distinct([p] + s)
  {
  }

  lemma ChainFrame(mem: map<nat, nat>, mem': map<nat, nat>, head: nat, s: seq<nat>)
    requires Chain(mem, head, s)
    requires forall p :: p in s && p in mem ==> p in mem' && mem'[p] == mem[p]
    ensures Chain(mem', head, s)
  {
  }

  lemma ChainPop(mem: map<nat, nat>, head: nat, s: seq<nat>)
    requires Chain(mem, head, s) && Distinct(s) && s != []
    ensures Chain(mem, mem[head], s[1..]) && Distinct(s[1..])
  {
  }

  lemma CutAt(s: seq<nat>, k: nat)
    requires k < |s|
    ensures |Cut(s, k)| == |s| - 1
    ensures forall i :: 0 <= i < |s| - 1 ==> Cut(s, k)[i] == if i < k then s[i] else s[i + 1]
  {
  }

  lemma CutDistinct(s: seq<nat>, k: nat)
    requires k < |s| && Distinct(s)
    ensures Distinct(Cut(s, k))
  {
    CutAt(s, k);
    hide Cut;
  }

  /** Redirecting the link before node `k` past it removes exactly that node. */
  lemma ChainCut(mem: map<nat, nat>, head: nat, s: seq<nat>, k: nat)
    requires Chain(mem, head, s) && Distinct(s) && 0 < k < |s|
    ensures Chain(mem[s[k - 1] := mem[s[k]]], head, Cut(s, k)) && Distinct(Cut(s, k))
  {
    CutAt(s, k);
    CutDistinct(s, k);
    hide Cut;
    var m := mem[s[k - 1] := mem[s[k]]];
    var c := Cut(s, k);
    forall i | 0 <= i < |c| ensures c[i] != 0 && c[i] in m && m[c[i]] == LinkTo(c, i + 1) {
      if i < k - 1 {
        assert s[i] != s[k - 1];
      } else if i >= k {
        assert s[k - 1] != s[i + 1];
      }
    }
  }

  lemma CutMembers(s: seq<nat>, k: nat, p: nat)
    requires k < |s| && Distinct(s)
    ensures p in Cut(s, k) <==> p in s && p != s[k]
  {
    var c := Cut(s, k);
    assert forall i :: 0 <= i < |c| ==> c[i] == if i < k then s[i] else s[i + 1];
    if p in s && p != s[k] {
      var i :| 0 <= i < |s| && s[i] == p;
      assert c[if i < k then i else i - 1] == p;
    }
  }

  // ----- families of lists that share one memory

  ghost predicate InFamily(lists: seq<seq<nat>>, o: nat, p: nat) {
    o < |lists| && p in lists[o]
  }

  ghost predicate OnNoList(lists: seq<seq<nat>>, p: nat) {
    forall k: nat :: !InFamily(lists, k, p)
  }

  /** Each head starts its own list, and no node lies on two lists. */
  ghost predicate Family(mem: map<nat, nat>, heads: seq<nat>, lists: seq<seq<nat>>) {
    && |heads| == |lists|
    && (forall o :: 0 <= o < |lists| ==> Chain(mem, heads[o], lists[o]) && Distinct(lists[o]))
    && (forall o: nat, k: nat, p: nat :: InFamily(lists, o, p) && InFamily(lists, k, p) ==> o == k)
  }

  /** Writing a word on no list leaves every list intact. */
  lemma FamilyFrame(mem: map<nat, nat>, mem': map<nat, nat>, heads: seq<nat>, lists: seq<seq<nat>>)
    requires Family(mem, heads, lists)
    requires forall o: nat, p: nat :: InFamily(lists, o, p) && p in mem ==> p in mem' && mem'[p] == mem[p]
    ensures Family(mem', heads, lists)
  {
    forall o | 0 <= o < |lists| ensures Chain(mem', heads[o], lists[o]) {
      assert forall p :: p in lists[o] ==> InFamily(lists, o, p);
      ChainFrame(mem, mem', heads[o], lists[o]);
    }
  }

  /** Replacing list `o` and rewriting only words of its own nodes, old or new. */
  lemma FamilyUpdate(mem: map<nat, nat>, heads: seq<nat>, lists: seq<seq<nat>>,
                     o: nat, mem': map<nat, nat>, head: nat, s: seq<nat>)
    requires Family(mem, heads, lists) && o < |lists|
    requires Chain(mem', head, s) && Distinct(s)
    requires forall p: nat, k: nat :: p in s && k != o ==> !InFamily(lists, k, p)
    requires forall p :: p in mem && p !in lists[o] && p !in s ==> p in mem' && mem'[p] == mem[p]
    ensures Family(mem', heads[o := head], lists[o := s])
  {
    hide Chain, Distinct;
    var lists' := lists[o := s];
    forall k | 0 <= k < |lists| ensures Chain(mem', heads[o := head][k], lists'[k]) && Distinct(lists'[k]) {
      if k != o {
        forall p | p in lists[k] && p in mem ensures p in mem' && mem'[p] == mem[p] {
          assert InFamily(lists, k, p) && (p in lists[o] ==> InFamily(lists, o, p));
        }
        ChainFrame(mem, mem', heads[k], lists[k]);
      }
    }
    forall j: nat, k: nat, p: nat | InFamily(lists', j, p) && InFamily(lists', k, p) ensures j == k {
      assert j != o ==> InFamily(lists, j, p);
      assert k != o ==> InFamily(lists, k, p);
    }
  }
}
