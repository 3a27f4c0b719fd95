/** The prune, envelope and claim closures and the claimed write, each step logged as a PeerLedger event. */
module PeerGate {
  import opened PeerLedger

  datatype Looked = Settled(value: bool) | LookupFailed
  datatype ClaimResult = Claimed | Full | Refused

  /** How one admission ends. */
  datatype Admission = Wrote | PruneFailed | NotOpen | Used | Busy | ClaimRefused

  /** The lookup cache of one pass only gains answers. */
  predicate Grows(a: map<Ref, bool>, b: map<Ref, bool>) {
    a.Keys <= b.Keys && forall k :: k in a ==> b[k] == a[k]
  }

  /** A claim file survives a pass when it is empty or its reference was not found settled. */
  predicate Survives(body: string, known: map<Ref, bool>) {
    body == "" || (body in known && !known[body])
  }

  class Gate {
    /** Whether the store and the disk answer every read and write. */
    const reliable: bool
    /** The message store, which other processes settle and reclaim between any two steps. */
    var records: map<Ref, Record>
    /** The durable claim directory of this generation: file name (a digest of the ref) to content. */
    var files: map<Ref, string>
    var used: set<Ref>
    ghost var phase: Phase
    ghost var writes: multiset<Ref>
    ghost var history: seq<Event>

    ghost function World(): Ledger
      reads this
    {
      Ledger(records, files, used, phase, writes)
    }

    /** Everything this object has done so far is a run of the ledger machine that ends here. */
    ghost predicate Valid()
      reads this
    {
      Runs(Init, history) && After(Init, history) == World()
    }

    constructor (answers: bool)
      ensures Valid() && World() == Init && reliable == answers
    {
      reliable := answers;
      records, files, used := map[], map[], {};
      phase, writes, history := Idle, multiset{}, [];
    }

    /** Appends one event that the fields already show. */
    ghost method Log(e: Event)
      requires Runs(Init, history)
      requires Enabled(After(Init, history), e) && Next(After(Init, history), e) == World()
      modifies this`history
      ensures Valid() && history == old(history) + [e]
    {
      Extend(Init, history, e);
      history := history + [e];
    }

    /** The environment may move any record forward here; it touches nothing else. */
    method Interfere()
      requires Valid()
      modifies this`records, this`history
      ensures Valid()
    {
    }

    /** The prune lookup: one store read a reference, cached for the rest of the pass. */
    method Lookup(ref: Ref, settled: map<Ref, bool>) returns (found: Looked, known: map<Ref, bool>)
      requires Valid() && phase.Pruning? && phase.settled == settled
      modifies this
      ensures Valid()
      ensures files == old(files) && used == old(used) && writes == old(writes)
      ensures phase == Pruning(old(phase).ref, known)
      ensures found.Settled? ==> ref in known && known[ref] == found.value
      ensures reliable ==> found.Settled?
      ensures Grows(settled, known)
    {
      known := settled;
      var failed: bool := *;
      if failed && !reliable {
        return LookupFailed, known;
      }
      if ref in settled {
        return Looked.Settled(settled[ref]), known;
      }
      Interfere();
      var value := KnownSettled(if ref in records then records[ref] else Unseen);
      known := settled[ref := value];
      phase := Pruning(phase.ref, known);
      Log(Check(ref));
      found := Looked.Settled(value);
    }

    /** Drops the in-memory claims of settled messages with a known outcome. */
    method PruneUsed(settled: map<Ref, bool>) returns (ok: bool, known: map<Ref, bool>)
      requires Valid() && phase.Pruning? && phase.settled == settled
      modifies this
      ensures Valid() && phase == Pruning(old(phase).ref, known)
      ensures used <= old(used) && files == old(files) && writes == old(writes) && Grows(settled, known)
      ensures ok ==> forall ref :: ref in old(used) ==> ref in known && (ref in used <==> !known[ref])
      ensures reliable ==> ok
    {
      known := settled;
      var refs := used;
      while refs != {}
        invariant Valid() && phase == Pruning(old(phase).ref, known)
        invariant files == old(files) && writes == old(writes) && refs <= used <= old(used) && Grows(settled, known)
        invariant forall ref :: ref in old(used) - refs ==> ref in known && (ref in used <==> !known[ref])
        decreases refs
      {
        var ref :| ref in refs;
        refs := refs - {ref};
        var value;
        value, known := Lookup(ref, known);
        if value.LookupFailed? {
          return false, known;
        }
        if value.value {
          used := used - {ref};
          Log(ForgetUsed(ref));
        }
      }
      ok := true;
    }

    /** Removes the claim files of settled messages with a known outcome; an empty file is left alone. */
    method PruneFiles(settled: map<Ref, bool>) returns (ok: bool, known: map<Ref, bool>)
      requires Valid() && phase.Pruning? && phase.settled == settled
      modifies this
      ensures Valid() && phase == Pruning(old(phase).ref, known)
      ensures used == old(used) && writes == old(writes) && files.Keys <= old(files).Keys && Grows(settled, known)
      ensures forall f :: f in files ==> files[f] == old(files)[f]
      ensures ok ==> forall f :: f in old(files) ==> (f in files <==> Survives(old(files)[f], known))
      ensures reliable ==> ok
    {
      known := settled;
      var entries := files.Keys;
      while entries != {}
        invariant Valid() && phase == Pruning(old(phase).ref, known)
        invariant entries <= files.Keys <= old(files).Keys && writes == old(writes) && used == old(used) && Grows(settled, known)
        invariant forall f :: f in files ==> files[f] == old(files)[f]
        invariant forall f :: f in old(files).Keys - entries ==> (f in files <==> Survives(old(files)[f], known))
        invariant forall f :: f in old(files).Keys - entries && old(files)[f] != "" ==> old(files)[f] in known
        decreases entries
      {
        var entry :| entry in entries;
        entries := entries - {entry};
        var kept;
        ok, kept, known := PruneFile(entry, known);
        if !ok {
          return false, known;
        }
      }
      ok := true;
    }

    /** One claim file: an empty one stays, and any other goes when its reference is found settled. */
    method PruneFile(entry: string, settled: map<Ref, bool>) returns (ok: bool, kept: bool, known: map<Ref, bool>)
      requires Valid() && phase.Pruning? && phase.settled == settled && entry in files
      modifies this
      ensures Valid() && phase == Pruning(old(phase).ref, known)
      ensures used == old(used) && writes == old(writes) && Grows(settled, known)
      ensures files == if kept then old(files) else old(files) - {entry}
      ensures !ok ==> kept
      ensures ok ==> (kept <==> Survives(old(files)[entry], known)) && (old(files)[entry] != "" ==> old(files)[entry] in known)
      ensures reliable ==> ok
    {
      var body := files[entry];
      if body == "" {
        return true, true, settled;
      }
      var value;
      value, known := Lookup(body, settled);
      if value.LookupFailed? {
        return false, true, known;
      }
      if value.value {
        files := files - {entry};
        Log(RemoveFile(entry));
      }
      ok, kept := true, !value.value;
    }

    method Prune() returns (ok: bool)
      requires Valid() && phase.Pruning? && phase.settled == map[]
      modifies this
      ensures Valid() && phase.Pruning? && phase.ref == old(phase).ref && writes == old(writes)
      ensures ok ==> forall ref :: ref in old(used) ==> ref in phase.settled && (ref in used <==> !phase.settled[ref])
      ensures ok ==> forall f :: f in old(files) ==> (f in files <==> Survives(old(files)[f], phase.settled))
      ensures used <= old(used) && forall f :: f in files ==> f in old(files) && files[f] == old(files)[f]
      ensures reliable ==> ok
    {
      var known;
      ok, known := PruneUsed(map[]);
      if ok {
        ok, known := PruneFiles(known);
      }
    }

    /** A claim that fails to be made: before its file exists, or behind it with whatever reached the disk. */
    method FailClaim(ref: Ref)
      requires Valid() && phase == Claiming(ref) && ClaimFree(World(), ref)
      modifies this`files, this`phase, this`history
      ensures Valid() && phase == Idle
      ensures files == old(files) || (ref in files && files == old(files)[ref := files[ref]])
    {
      var created: bool := *;
      phase := Idle;
      if created {
        var torn: string := *;
        files := files[ref := torn];
        Log(ClaimTorn(torn));
      } else {
        Log(Abort);
      }
    }

    /** The exclusive, synced creation of one claim file. */
    method ClaimFile(ref: Ref) returns (result: ClaimResult)
      requires Valid() && phase == Claiming(ref) && ref !in used && |used| < LEDGER_LIMIT
      modifies this
      ensures Valid() && writes == old(writes)
      ensures result.Claimed? ==> phase == Writing(ref) && files == old(files)[ref := ref] && used == old(used) + {ref}
      ensures !result.Claimed? ==> phase == Idle && used == old(used)
      ensures result.Full? ==> files == old(files)
      ensures result.Full? <==> |old(files)| >= 256
      ensures result.Refused? ==> ref in old(files) || !reliable
      ensures result.Refused? && ref in old(files) ==> files == old(files)
      ensures result.Refused? ==> files == old(files) || (ref in files && files == old(files)[ref := files[ref]])
    {
      if |files.Keys| >= LEDGER_LIMIT {
        phase := Idle;
        Log(Abort);
        return Full;
      }
      if ref in files {
        phase := Idle;
        Log(Abort);
        return Refused;
      }
      var failed: bool := *;
      if failed && !reliable {
        FailClaim(ref);
        return Refused;
      }
      files := files[ref := ref];
      used := used + {ref};
      phase := Writing(ref);
      Log(Claim);
      result := Claimed;
    }

    /** One peer admission: prune, read the envelope again, claim, write. Each refusal has its cause. */
    method Admit(ref: Ref, authorized: bool) returns (a: Admission)
      requires Valid() && phase.Idle?
      modifies this
      ensures Valid() && phase.Idle?
      ensures writes == if a.Wrote? then old(writes) + multiset{ref} else old(writes)
      ensures a.Wrote? ==> authorized && ref in used && writes[ref] <= 1 + Reacceptances(history, ref)
      ensures a.PruneFailed? ==> !reliable
      ensures a.NotOpen? ==> !authorized || !RecordOf(World(), ref).Open?
      ensures a.Used? ==> ref in used
      ensures a.Busy? ==> |used| >= 256 || |files| >= 256
      ensures a.ClaimRefused? ==> ref in files || !reliable
    {
      phase := Pruning(ref, map[]);
      Log(Begin(ref));
      var pruned := Prune();
      if !pruned {
        phase := Idle;
        Log(Abort);
        return PruneFailed;
      }
      phase := Reading(ref);
      Log(EndPrune);
      var open := SeeAgain(ref, authorized);
      if !open {
        return NotOpen;
      }
      a := ClaimAndWrite(ref);
    }

    /** Reads the stored envelope after pruning: only a record that is still open may be claimed. */
    method SeeAgain(ref: Ref, authorized: bool) returns (open: bool)
      requires Valid() && phase == Reading(ref)
      modifies this
      ensures Valid() && phase == (if open then Claiming(ref) else Idle)
      ensures open <==> authorized && RecordOf(World(), ref).Open?
      ensures writes == old(writes)
    {
      Interfere();
      if !authorized || !(ref in records && records[ref].Open?) {
        phase := Idle;
        Log(Abort);
        return false;
      }
      phase := Claiming(ref);
      Log(SeeEnvelope);
      open := true;
    }

    method ClaimAndWrite(ref: Ref) returns (a: Admission)
      requires Valid() && phase == Claiming(ref)
      modifies this
      ensures Valid() && phase.Idle? && !a.PruneFailed? && !a.NotOpen?
      ensures writes == if a.Wrote? then old(writes) + multiset{ref} else old(writes)
      ensures a.Wrote? ==> ref in used && writes[ref] <= 1 + Reacceptances(history, ref)
      ensures a.Used? ==> ref in used
      ensures a.Busy? ==> |used| >= 256 || |files| >= 256
      ensures a.ClaimRefused? ==> ref in files || !reliable
    {
      Interfere();
      if ref in used || |used| >= LEDGER_LIMIT {
        phase := Idle;
        Log(Abort);
        return if ref in used then Used else Busy;
      }
      var result := ClaimFile(ref);
      if !result.Claimed? {
        return if result.Full? then Busy else ClaimRefused;
      }
      Interfere();
      WriteClaimed(ref);
      a := Wrote;
    }

    /** The one provider write behind a fresh claim. */
    method WriteClaimed(ref: Ref)
      requires Valid() && phase == Writing(ref)
      modifies this`writes, this`phase, this`history
      ensures Valid() && phase.Idle? && writes == old(writes) + multiset{ref}
      ensures writes[ref] <= 1 + Reacceptances(history, ref)
    {
      writes := writes + multiset{ref};
      phase := Idle;
      Log(Write);
      WritesWithinAcceptances(history, ref);
    }
  }
}
