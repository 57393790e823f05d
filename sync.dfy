/**
 * The rules of the sync engine as functions of the quote list: how one
 * fetched server quote is classified, the merge of a whole batch, and the
 * resolution of recorded conflicts in favour of the server version.
 */
module Sync {
  import opened Seqs
  import opened Quotes

  /** A server quote whose text is on the list under another category, with the entry it collides with. */
  datatype Conflict = Conflict(local: Quote, server: Quote)

  /** `local` has the text of `server` but a different category. */
  predicate Clashes(local: Quote, server: Quote) {
    local.text == server.text && local.category != server.category
  }

  /** The first position whose quote clashes with `s`, or -1 (Array.prototype.find). */
  function FindClash(qs: seq<Quote>, s: Quote): (r: int)
    ensures -1 <= r < |qs|
    ensures r == -1 <==> forall k :: 0 <= k < |qs| ==> !Clashes(qs[k], s)
    ensures 0 <= r ==> Clashes(qs[r], s) && forall k :: 0 <= k < r ==> !Clashes(qs[k], s)
  {
    if |qs| == 0 then -1
    else if Clashes(qs[0], s) then 0
    else
      var k := FindClash(qs[1..], s);
      if k == -1 then -1 else k + 1
  }

  /** What the merge does with one server quote. */
  datatype Action = Skip | Record(local: Quote) | Append

  /**
   * Exactly one of three cases: a quote equal to `s` is on the list (skip);
   * otherwise some entry has the text of `s`, and the first one is recorded
   * as a conflict; otherwise `s` is appended.
   */
  function Classify(qs: seq<Quote>, s: Quote): (a: Action)
    ensures a == Skip <==> s in qs
    ensures a == Append <==> s !in qs && forall k :: 0 <= k < |qs| ==> qs[k].text != s.text
    ensures a.Record? ==>
              exists i :: 0 <= i < |qs| && qs[i] == a.local && Clashes(a.local, s)
                          && forall k :: 0 <= k < i ==> qs[k].text != s.text
  {
    if s in qs then Skip
    else
      var i := FindClash(qs, s);
      if i == -1 then Append else Record(qs[i])
  }

  /** The state of a merge: the list, the conflicts found, and how many quotes were added or skipped. */
  datatype Merge = Merge(quotes: seq<Quote>, conflicts: seq<Conflict>, added: nat, skipped: nat)

  /**
   * Merging the server quotes one by one, in order; each one is classified
   * against the list as it stands after the earlier ones.
   */
  function SyncMerge(qs: seq<Quote>, server: seq<Quote>): (m: Merge)
    ensures m.added + |m.conflicts| + m.skipped == |server|
    decreases |server|
  {
    if |server| == 0 then Merge(qs, [], 0, 0)
    else
      var m := SyncMerge(qs, server[..|server| - 1]);
      var s := server[|server| - 1];
      match Classify(m.quotes, s)
      case Skip => m.(skipped := m.skipped + 1)
      case Record(local) => m.(conflicts := m.conflicts + [Conflict(local, s)])
      case Append => m.(quotes := m.quotes + [s], added := m.added + 1)
  }

  /**
   * Every server quote is counted exactly once as skipped, conflicting or
   * added; the old list is a prefix of the new one, which grows by the
   * number added.
   */
  lemma {:induction false} SyncMergeAccounts(qs: seq<Quote>, server: seq<Quote>)
    ensures SyncMerge(qs, server).added + |SyncMerge(qs, server).conflicts| + SyncMerge(qs, server).skipped
            == |server|
    ensures |SyncMerge(qs, server).quotes| == |qs| + SyncMerge(qs, server).added
    ensures SyncMerge(qs, server).quotes[..|qs|] == qs
    decreases |server|
  {
    if |server| > 0 {
      SyncMergeAccounts(qs, server[..|server| - 1]);
      var m := SyncMerge(qs, server[..|server| - 1]);
      assert (m.quotes + [server[|server| - 1]])[..|qs|] == m.quotes[..|qs|];
    }
  }

  /**
   * Each appended quote comes from the server; each conflict pairs a server
   * quote with an entry of the list that has its text and another category;
   * and every server quote ends up on the list or in a conflict.
   */
  lemma {:induction false} SyncMergeSources(qs: seq<Quote>, server: seq<Quote>)
    ensures forall i :: |qs| <= i < |SyncMerge(qs, server).quotes| ==> SyncMerge(qs, server).quotes[i] in server
    ensures forall c :: c in SyncMerge(qs, server).conflicts ==>
              c.server in server && c.local in SyncMerge(qs, server).quotes && Clashes(c.local, c.server)
    ensures forall k :: 0 <= k < |server| ==>
              server[k] in SyncMerge(qs, server).quotes
              || exists c :: c in SyncMerge(qs, server).conflicts && c.server == server[k]
    decreases |server|
  {
    if |server| > 0 {
      var init, s := server[..|server| - 1], server[|server| - 1];
      assert server == init + [s];
      SyncMergeSources(qs, init);
      SyncMergeAccounts(qs, init);
      var m := SyncMerge(qs, init);
      var m' := SyncMerge(qs, server);
      forall k | 0 <= k < |server|
        ensures server[k] in m'.quotes || exists c :: c in m'.conflicts && c.server == server[k]
      {
        if k < |init| {
          assert server[k] == init[k];
          if init[k] in m.quotes {
            assert m.quotes <= m'.quotes;
          } else {
            var c :| c in m.conflicts && c.server == init[k];
            assert c in m'.conflicts;
          }
        } else {
          match Classify(m.quotes, s)
          case Skip =>
          case Record(local) => assert Conflict(local, s) in m'.conflicts;
          case Append =>
        }
      }
    }
  }

  /** A sync never makes a duplicate-free list contain duplicates. */
  lemma {:induction false} SyncMergeNoDup(qs: seq<Quote>, server: seq<Quote>)
    requires NoDup(qs)
    ensures NoDup(SyncMerge(qs, server).quotes)
    decreases |server|
  {
    if |server| > 0 {
      SyncMergeNoDup(qs, server[..|server| - 1]);
      var m, s := SyncMerge(qs, server[..|server| - 1]), server[|server| - 1];
      if Classify(m.quotes, s) == Append {
        var l := m.quotes + [s];
        forall i, j | 0 <= i < j < |l| ensures l[i] != l[j] {
          if j == |m.quotes| {
            assert l[i] == m.quotes[i];
          }
        }
      }
    }
  }

  /** Concrete case: syncing A/Z into [A/X] records one conflict and leaves the list alone. */
  lemma SyncScenario()
    ensures SyncMerge([Quote("A", "X")], [Quote("A", "Z")])
            == Merge([Quote("A", "X")], [Conflict(Quote("A", "X"), Quote("A", "Z"))], 0, 0)
  {
    assert [Quote("A", "Z")][..0] == [];
    assert Classify([Quote("A", "X")], Quote("A", "Z")) == Record(Quote("A", "X"));
  }

  // ------------------------------------------------------------ resolution

  /** The list after resolution, the conflicts left pending, and how many were resolved. */
  datatype Resolution = Resolution(quotes: seq<Quote>, unresolved: seq<Conflict>, resolved: nat)

  /**
   * Takes the conflicts in order: when the list holds the conflict's local
   * quote, its first occurrence is overwritten with the server quote;
   * otherwise the conflict stays pending.
   */
  function ResolveAll(qs: seq<Quote>, cs: seq<Conflict>): (r: Resolution)
    ensures |r.quotes| == |qs|
    ensures r.resolved + |r.unresolved| == |cs|
    decreases |cs|
  {
    if |cs| == 0 then Resolution(qs, [], 0)
    else
      var r := ResolveAll(qs, cs[..|cs| - 1]);
      var c := cs[|cs| - 1];
      var i := IndexOf(r.quotes, c.local);
      if i == -1 then r.(unresolved := r.unresolved + [c])
      else r.(quotes := r.quotes[i := c.server], resolved := r.resolved + 1)
  }

  /** The server side of each conflict. */
  function ServerSides(cs: seq<Conflict>): seq<Quote>
  {
    seq(|cs|, k requires 0 <= k < |cs| => cs[k].server)
  }

  /**
   * Resolution never changes the list's length; each conflict is either
   * resolved or kept, the kept ones in their original order; and every
   * position holds its old quote or the server side of some conflict.
   */
  lemma {:induction false} ResolveAllAccounts(qs: seq<Quote>, cs: seq<Conflict>)
    ensures |ResolveAll(qs, cs).quotes| == |qs|
    ensures ResolveAll(qs, cs).resolved + |ResolveAll(qs, cs).unresolved| == |cs|
    ensures SubseqOf(ResolveAll(qs, cs).unresolved, cs)
    ensures forall i :: 0 <= i < |qs| ==>
              ResolveAll(qs, cs).quotes[i] == qs[i] || ResolveAll(qs, cs).quotes[i] in ServerSides(cs)
    decreases |cs|
  {
    if |cs| > 0 {
      var init, c := cs[..|cs| - 1], cs[|cs| - 1];
      ResolveAllAccounts(qs, init);
      var r := ResolveAll(qs, init);
      assert (r.unresolved + [c])[..|r.unresolved|] == r.unresolved;
      assert ServerSides(cs) == ServerSides(init) + [c.server];
    }
  }

  /** When nothing is resolved the list is untouched and every conflict stays pending. */
  lemma {:induction false} ResolveNoneMatched(qs: seq<Quote>, cs: seq<Conflict>)
    requires ResolveAll(qs, cs).resolved == 0
    ensures ResolveAll(qs, cs).quotes == qs
    ensures ResolveAll(qs, cs).unresolved == cs
    decreases |cs|
  {
    if |cs| > 0 {
      ResolveNoneMatched(qs, cs[..|cs| - 1]);
    }
  }

  /** Concrete case: resolving the A/X versus A/Z conflict turns the entry into A/Z and leaves nothing pending. */
  lemma ResolveScenario()
    ensures ResolveAll([Quote("A", "X")], [Conflict(Quote("A", "X"), Quote("A", "Z"))])
            == Resolution([Quote("A", "Z")], [], 1)
  {
    assert [Conflict(Quote("A", "X"), Quote("A", "Z"))][..0] == [];
  }

  /**
   * Concrete case: a conflict recorded twice (two syncs before a resolve)
   * is resolved once; the second copy no longer finds its local quote and
   * stays pending.
   */
  lemma RepeatedConflictStaysPending()
    ensures var c := Conflict(Quote("A", "X"), Quote("A", "Z"));
            ResolveAll([Quote("A", "X")], [c, c]) == Resolution([Quote("A", "Z")], [c], 1)
  {
    var c := Conflict(Quote("A", "X"), Quote("A", "Z"));
    assert [c, c][..1] == [c] && [c][..0] == [];
    ResolveScenario();
    assert IndexOf([Quote("A", "Z")], Quote("A", "X")) == -1;
  }

  /** Concrete case: two syncs of A/Z into [A/X] record the same conflict twice. */
  lemma RepeatedSyncRecordsTwice()
    ensures var c := Conflict(Quote("A", "X"), Quote("A", "Z"));
            SyncMerge([Quote("A", "X")], [Quote("A", "Z")]).conflicts
            + SyncMerge(SyncMerge([Quote("A", "X")], [Quote("A", "Z")]).quotes, [Quote("A", "Z")]).conflicts
            == [c, c]
  {
    SyncScenario();
  }
}
