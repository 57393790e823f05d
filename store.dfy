/**
 * The page's mutable state: the quote list, the pending conflicts and the
 * busy flag of the sync engine, with one method per operation that changes
 * them. Each method's postcondition gives the whole new state in terms of
 * the old one and the specification functions of Quotes and Sync.
 */
module Store {
  import opened Wrappers
  import opened Seqs
  import opened Text
  import opened Quotes
  import opened Sync

  class QuoteStore {
    var quotes: seq<Quote>
    var conflicts: seq<Conflict>
    var syncing: bool

    /** The page as loaded: the built-in quotes, no conflicts, no sync running. */
    constructor ()
      ensures quotes == DefaultQuotes && conflicts == [] && !syncing
    {
      quotes := DefaultQuotes;
      conflicts := [];
      syncing := false;
    }

    /**
     * Adds the trimmed text and category as a new quote at the end, unless
     * either is empty once trimmed, in which case nothing changes.
     */
    method AddQuote(rawText: string, rawCategory: string) returns (added: bool)
      modifies this`quotes
      ensures added <==> Trim(rawText) != "" && Trim(rawCategory) != ""
      ensures quotes == if added then old(quotes) + [Quote(Trim(rawText), Trim(rawCategory))] else old(quotes)
      ensures added ==> ValidQuote(quotes[|quotes| - 1])
    {
      var text := Trim(rawText);
      var category := Trim(rawCategory);
      if text == "" || category == "" {
        return false;
      }
      TrimIdempotent(rawText);
      TrimIdempotent(rawCategory);
      quotes := quotes + [Quote(text, category)];
      added := true;
    }

    /**
     * Deletes the quote at `index` once the user confirms, with the index
     * read as `splice(index, 1)` reads it; returns the deleted quote.
     */
    method DeleteQuote(index: int, confirmed: bool) returns (deleted: Option<Quote>)
      modifies this`quotes
      ensures deleted.Some? <==> confirmed && SpliceTarget(|old(quotes)|, index).Some?
      ensures deleted.Some? ==>
                var k := SpliceTarget(|old(quotes)|, index).value;
                deleted.value == old(quotes)[k] && quotes == old(quotes)[..k] + old(quotes)[k + 1..]
      ensures deleted.None? ==> quotes == old(quotes)
    {
      deleted := None;
      if confirmed {
        var target := SpliceTarget(|quotes|, index);
        if target.Some? {
          var k := target.value;
          deleted := Some(quotes[k]);
          quotes := quotes[..k] + quotes[k + 1..];
        }
      }
    }

    /**
     * Replaces the list with the saved one when the saved value parsed as a
     * non-empty array; `None` stands for a missing key, unparsable text or a
     * value that is not an array.
     */
    method LoadFromStorage(saved: Option<seq<Quote>>) returns (loaded: bool)
      modifies this`quotes
      ensures loaded <==> saved.Some? && saved.value != []
      ensures quotes == if loaded then saved.value else old(quotes)
    {
      loaded := saved.Some? && saved.value != [];
      if loaded {
        quotes := saved.value;
      }
    }

    /**
     * Takes the conflicts saved by an earlier session as the pending ones at
     * page load; `None` stands for a missing or empty key, which keeps the
     * pending list as it is.
     */
    method LoadConflicts(saved: Option<seq<Conflict>>)
      modifies this`conflicts
      ensures conflicts == if saved.Some? then saved.value else old(conflicts)
    {
      if saved.Some? {
        conflicts := saved.value;
      }
    }

    /** Empties the list once the user confirms. */
    method ClearAll(confirmed: bool)
      modifies this`quotes
      ensures quotes == if confirmed then [] else old(quotes)
    {
      if confirmed {
        quotes := [];
      }
    }

    /** Restores the built-in list once the user confirms. */
    method ResetToDefault(confirmed: bool)
      modifies this`quotes
      ensures quotes == if confirmed then DefaultQuotes else old(quotes)
    {
      if confirmed {
        quotes := DefaultQuotes;
      }
    }

    /**
     * Imports a parsed file: on an error the list is unchanged; otherwise the
     * list becomes the result of `Import` and the number of quotes added is
     * returned.
     */
    method ImportFromJson(payload: Payload) returns (outcome: Result<nat, ImportError>)
      modifies this`quotes
      ensures Import(old(quotes), payload).Err? ==>
                outcome == Err(Import(old(quotes), payload).error) && quotes == old(quotes)
      ensures Import(old(quotes), payload).Ok? ==>
                && quotes == Import(old(quotes), payload).value
                && outcome.Ok? && |quotes| == |old(quotes)| + outcome.value
    {
      match payload
      case Unparsable =>
        return Err(ParseError);
      case NotArray =>
        return Err(NotAnArray);
      case Array(entries) =>
        var valid := ValidQuotes(entries);
        if |valid| == 0 {
          assert Import(quotes, payload) == Err(NoValidQuotes);
          return Err(NoValidQuotes);
        }
        ghost var merged := AppendNew(quotes, valid);
        assert Import(quotes, payload) == Ok(merged);
        var addedCount := AppendQuotes(valid);
        assert quotes == merged;
        outcome := Ok(addedCount);
    }

    /**
     * The import loop: appends each quote of `valid` that the list, as it
     * stands at that moment, does not already hold.
     */
    method AppendQuotes(valid: seq<Quote>) returns (addedCount: nat)
      modifies this`quotes
      ensures quotes == AppendNew(old(quotes), valid)
      ensures |quotes| == |old(quotes)| + addedCount
    {
      addedCount := 0;
      var i := 0;
      while i < |valid|
        invariant 0 <= i <= |valid|
        invariant quotes == AppendNew(old(quotes), valid[..i])
        invariant |quotes| == |old(quotes)| + addedCount
      {
        assert valid[..i + 1][..i] == valid[..i];
        var q := valid[i];
        var present := q in quotes;
        if !present {
          quotes := quotes + [q];
          addedCount := addedCount + 1;
        }
        i := i + 1;
      }
      assert valid[..i] == valid;
    }

    /** Raises the busy flag; refuses (and changes nothing) while a sync is already running. */
    method BeginSync() returns (started: bool)
      modifies this`syncing
      ensures started <==> !old(syncing)
      ensures syncing
    {
      started := !syncing;
      syncing := true;
    }

    /** Lowers the busy flag when a sync that was started finishes. */
    method EndSync()
      modifies this`syncing
      ensures !syncing
    {
      syncing := false;
    }

    /**
     * Merges a batch of server quotes into the list and appends the
     * conflicts found to the pending ones.
     */
    method MergeServerQuotes(server: seq<Quote>) returns (added: nat, conflictCount: nat)
      modifies this`quotes, this`conflicts
      ensures var m := SyncMerge(old(quotes), server);
                && quotes == m.quotes
                && conflicts == old(conflicts) + m.conflicts
                && added == m.added && conflictCount == |m.conflicts|
    {
      var newConflicts;
      ghost var skipped;
      newConflicts, added, skipped := MergeBatch(server);
      conflictCount := |newConflicts|;
      conflicts := conflicts + newConflicts;
    }

    /**
     * The merge loop: each server quote in turn is skipped, recorded as a
     * conflict with the first quote of equal text, or appended.
     */
    method MergeBatch(server: seq<Quote>) returns (newConflicts: seq<Conflict>, added: nat, ghost skipped: nat)
      modifies this`quotes
      ensures SyncMerge(old(quotes), server) == Merge(quotes, newConflicts, added, skipped)
    {
      newConflicts, added, skipped := [], 0, 0;
      var i := 0;
      while i < |server|
        invariant 0 <= i <= |server|
        invariant SyncMerge(old(quotes), server[..i]) == Merge(quotes, newConflicts, added, skipped)
      {
        assert server[..i + 1][..i] == server[..i];
        var s := server[i];
        if s in quotes {
          skipped := skipped + 1;
        } else {
          var k := FindClash(quotes, s);
          if k != -1 {
            newConflicts := newConflicts + [Conflict(quotes[k], s)];
          } else {
            quotes := quotes + [s];
            added := added + 1;
          }
        }
        i := i + 1;
      }
      assert server[..i] == server;
    }

    /**
     * One sync: refused while another is running; otherwise the fetched
     * titles (`None` when the request failed) are mapped to server quotes and
     * merged, and the busy flag is lowered again.
     */
    method SyncQuotes(fetched: Option<seq<string>>) returns (ran: bool, added: nat, conflictCount: nat)
      modifies this
      ensures ran <==> !old(syncing)
      ensures !ran ==> quotes == old(quotes) && conflicts == old(conflicts) && syncing
                       && added == 0 && conflictCount == 0
      ensures ran ==>
                var m := SyncMerge(old(quotes), ServerQuotes(fetched));
                && quotes == m.quotes
                && conflicts == old(conflicts) + m.conflicts
                && added == m.added && conflictCount == |m.conflicts|
                && !syncing
    {
      added, conflictCount := 0, 0;
      ran := BeginSync();
      if !ran {
        return;
      }
      var server := ServerQuotes(fetched);
      added, conflictCount := MergeServerQuotes(server);
      EndSync();
    }

    /**
     * Applies the server version of every pending conflict. When nothing is
     * pending in memory, the conflicts saved in storage (if any) are taken
     * instead.
     */
    method ResolveConflicts(saved: Option<seq<Conflict>>) returns (resolved: nat)
      modifies this`quotes, this`conflicts
      ensures var pending := if old(conflicts) == [] && saved.Some? then saved.value else old(conflicts);
                var r := ResolveAll(old(quotes), pending);
                quotes == r.quotes && conflicts == r.unresolved && resolved == r.resolved
    {
      if conflicts == [] && saved.Some? {
        conflicts := saved.value;
      }
      if conflicts == [] {
        return 0;
      }
      var unresolved;
      unresolved, resolved := ApplyResolutions(conflicts);
      conflicts := unresolved;
    }

    /**
     * The resolution loop: each conflict in turn overwrites the first quote
     * equal to its local side, or is kept as unresolved.
     */
    method ApplyResolutions(pending: seq<Conflict>) returns (unresolved: seq<Conflict>, resolved: nat)
      modifies this`quotes
      ensures ResolveAll(old(quotes), pending) == Resolution(quotes, unresolved, resolved)
    {
      unresolved, resolved := [], 0;
      var i := 0;
      while i < |pending|
        invariant 0 <= i <= |pending|
        invariant ResolveAll(old(quotes), pending[..i]) == Resolution(quotes, unresolved, resolved)
      {
        assert pending[..i + 1][..i] == pending[..i];
        var c := pending[i];
        var index := IndexOf(quotes, c.local);
        if index != -1 {
          quotes := quotes[index := c.server];
          resolved := resolved + 1;
        } else {
          unresolved := unresolved + [c];
        }
        i := i + 1;
      }
      assert pending[..i] == pending;
    }
  }
}
