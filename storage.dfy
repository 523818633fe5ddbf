/** The lease store and the reaper's single step (server/src/storage.rs).
    The dumps file is the one piece of state the server's operations share;
    each operation opens its own database handle, which holds a copy of the
    file's records until `DumpDb` writes them back. */
module Storage {
  import opened Common
  import opened UtilsClient

  /** A lease: the presence record, when it was stored, and for how long it lives. */
  datatype ClientInfoRecord = ClientInfoRecord(clientInfo: ClientInfo, recordTime: int, lifetime: U64)

  /** The errors of the database library that the core tells apart. */
  datatype DbError = ItemNotFound | OtherDbError

  /** `ClientInfoRecord::new`, stamped with the current time `now`. */
  function NewRecord(clientInfo: ClientInfo, lifetime: U64, now: int): (r: ClientInfoRecord)
    ensures r.clientInfo == clientInfo && r.lifetime == lifetime
    ensures r.recordTime == now
  {
    ClientInfoRecord(clientInfo, now, lifetime)
  }

  /** `is_outdated`: strictly more than `lifetime` seconds have passed since
      the record was stored. A clock earlier than the record time makes the
      source panic, so that is excluded here and handled by the caller.
      The elapsed `Duration` is compared with `lifetime` whole seconds the
      way durations are ordered: first by whole seconds, then by the
      fraction of a second. */
  function IsOutdated(s: ClientInfoRecord, lifetime: U64, now: int): (r: bool)
    requires now >= s.recordTime
    ensures r <==> var secs, frac := (now - s.recordTime) / MillisPerSecond, (now - s.recordTime) % MillisPerSecond;
      secs > lifetime || (secs == lifetime && frac > 0)
    ensures r ==> now > s.recordTime
    ensures lifetime == 0 ==> (r <==> now > s.recordTime)
  {
    now - s.recordTime > lifetime * MillisPerSecond
  }

  /** The comparison is strict: exactly `lifetime` seconds is still live,
      one millisecond more is outdated. */
  lemma OutdatedIsStrict(s: ClientInfoRecord, lifetime: U64)
    ensures !IsOutdated(s, lifetime, s.recordTime + lifetime * MillisPerSecond)
    ensures IsOutdated(s, lifetime, s.recordTime + lifetime * MillisPerSecond + 1)
  {
  }

  /** Once outdated, a record stays outdated as the clock moves on. */
  lemma OutdatedIsMonotone(s: ClientInfoRecord, lifetime: U64, now: int, later: int)
    requires s.recordTime <= now <= later
    ensures IsOutdated(s, lifetime, now) ==> IsOutdated(s, lifetime, later)
  {
  }

  /** The dumps file: the records a freshly opened database sees. */
  class DumpFile {
    var contents: set<ClientInfoRecord>

    constructor (contents: set<ClientInfoRecord>)
      ensures this.contents == contents
    {
      this.contents := contents;
    }
  }

  /** An opened database handle over a dumps file. */
  class Database {
    const file: DumpFile
    var items: set<ClientInfoRecord>

    constructor Load(file: DumpFile)
      ensures this.file == file && items == file.contents
    {
      this.file := file;
      items := file.contents;
    }

    /** `add_item`: inserts into the handle only; `fails` is the library's own failure. */
    method AddItem(item: ClientInfoRecord, fails: bool) returns (res: Result<(), DbError>)
      modifies this
      ensures res.Ok? <==> !fails
      ensures res.Err? ==> res.error == OtherDbError
      ensures items == if res.Ok? then old(items) + {item} else old(items)
    {
      if fails {
        res := Err(OtherDbError);
      } else {
        items := items + {item};
        res := Ok(());
      }
    }

    /** `remove_item`: a record that is not there is `ItemNotFound`. */
    method RemoveItem(item: ClientInfoRecord, fails: bool) returns (res: Result<(), DbError>)
      modifies this
      ensures item !in old(items) ==> res == Err(ItemNotFound)
      ensures item in old(items) && res.Err? ==> res.error == OtherDbError
      ensures res.Ok? <==> item in old(items) && !fails
      ensures items == if res.Ok? then old(items) - {item} else old(items)
    {
      if item !in items {
        res := Err(ItemNotFound);
      } else if fails {
        res := Err(OtherDbError);
      } else {
        items := items - {item};
        res := Ok(());
      }
    }

    /** `query_item`: SOME record whose key equals `value` (which one is the
        library's choice), or `ItemNotFound` when none does. */
    method QueryItem<K(==)>(key: ClientInfoRecord -> K, value: K) returns (res: Result<ClientInfoRecord, DbError>)
      ensures res.Ok? ==> res.value in items && key(res.value) == value
      ensures res.Err? <==> forall x :: x in items ==> key(x) != value
      ensures res.Err? ==> res.error == ItemNotFound
    {
      if x :| x in items && key(x) == value {
        res := Ok(x);
      } else {
        res := Err(ItemNotFound);
      }
    }

    /** `dump_db`: replaces the file's records with the handle's; a failed
        write leaves the file as it was. */
    method DumpDb(fails: bool) returns (res: Result<(), DbError>)
      modifies file
      ensures res.Ok? <==> !fails
      ensures res.Err? ==> res.error == OtherDbError
      ensures file.contents == if res.Ok? then items else old(file.contents)
    {
      if fails {
        res := Err(OtherDbError);
      } else {
        file.contents := items;
        res := Ok(());
      }
    }
  }

  /** `Database::auto_from`: a fresh handle holding the file's records, or an
      error when the file cannot be opened or read. */
  method AutoFrom(file: DumpFile, fails: bool) returns (res: Result<Database, DbError>)
    ensures res.Ok? <==> !fails
    ensures res.Err? ==> res.error == OtherDbError
    ensures res.Ok? ==> fresh(res.value) && res.value.file == file && res.value.items == file.contents
  {
    if fails {
      res := Err(OtherDbError);
    } else {
      var db := new Database.Load(file);
      res := Ok(db);
    }
  }

  /** Which of the steps of one reaper pass the environment makes fail. */
  datatype CleanFaults = CleanFaults(firstOpen: bool, secondOpen: bool, remove: bool, dump: bool)

  /** How `clean_outdated` ends: `Ok(())`, an error, or the panic of
      `is_outdated` on a clock reading before the record time. */
  datatype CleanOutcome = Done | Failed(error: DbError) | ClockPanic

  /** Some record of `records` carries exactly this lifetime. */
  ghost predicate HasLifetime(records: set<ClientInfoRecord>, lifetime: U64)
  {
    exists r :: r in records && r.lifetime == lifetime
  }

  /** One reaper pass, as a relation between the records before and after:
      nothing changes, or exactly one record that carries `lifetime` and is
      outdated at `now` is removed. */
  ghost predicate CleanStep(before: set<ClientInfoRecord>, after: set<ClientInfoRecord>, lifetime: U64, now: int)
  {
    || after == before
    || exists x :: x in before && x.lifetime == lifetime && now >= x.recordTime &&
                   IsOutdated(x, lifetime, now) && after == before - {x}
  }

  /** How one reaper pass ends once the query has picked `x`: a clock behind
      the record panics, a live record is left alone, and an outdated one is
      removed and flushed unless the reopen, the removal or the dump fails. */
  ghost predicate PickResult(before: set<ClientInfoRecord>, after: set<ClientInfoRecord>, lifetime: U64,
                             now: int, faults: CleanFaults, outcome: CleanOutcome, x: ClientInfoRecord)
  {
    if now < x.recordTime then outcome == ClockPanic && after == before
    else if !IsOutdated(x, lifetime, now) then outcome == Done && after == before
    else if faults.secondOpen || faults.remove || faults.dump then
      outcome == Failed(OtherDbError) && after == before
    else outcome == Done && after == before - {x}
  }

  /** The whole effect of one reaper pass on the records and its outcome:
      a failed open and an empty pick change nothing, and otherwise some
      record carrying `lifetime` is picked and treated as `PickResult` says. */
  ghost predicate CleanResult(before: set<ClientInfoRecord>, after: set<ClientInfoRecord>, lifetime: U64,
                              now: int, faults: CleanFaults, outcome: CleanOutcome)
  {
    if faults.firstOpen then outcome == Failed(OtherDbError) && after == before
    else if !HasLifetime(before, lifetime) then outcome == Failed(ItemNotFound) && after == before
    else exists x :: x in before && x.lifetime == lifetime && PickResult(before, after, lifetime, now, faults, outcome, x)
  }

  /** Every pass that `CleanResult` allows is a `CleanStep`. */
  lemma ResultIsStep(before: set<ClientInfoRecord>, after: set<ClientInfoRecord>, lifetime: U64,
                     now: int, faults: CleanFaults, outcome: CleanOutcome)
    requires CleanResult(before, after, lifetime, now, faults, outcome)
    ensures CleanStep(before, after, lifetime, now)
  {
    if !faults.firstOpen && HasLifetime(before, lifetime) {
      var x :| x in before && x.lifetime == lifetime && PickResult(before, after, lifetime, now, faults, outcome, x);
    }
  }

  /** `clean_outdated`: pick one record whose STORED lifetime equals
      `lifetime`, and remove it (then flush) only if it is outdated.
      `selected` names the record the query picked. */
  method CleanOutdated(file: DumpFile, lifetime: U64, now: int, faults: CleanFaults)
      returns (outcome: CleanOutcome, ghost selected: Option<ClientInfoRecord>)
    modifies file
    // the pick
    ensures selected.None? <==> faults.firstOpen || !HasLifetime(old(file.contents), lifetime)
    ensures selected.Some? ==> selected.value in old(file.contents) && selected.value.lifetime == lifetime
    // nothing to pick: no change
    ensures selected.None? ==>
      outcome == Failed(if faults.firstOpen then OtherDbError else ItemNotFound) &&
      file.contents == old(file.contents)
    // at most the picked record goes, and only on success
    ensures file.contents == old(file.contents) ||
      (outcome == Done && selected.Some? && file.contents == old(file.contents) - {selected.value})
    ensures forall x :: x in old(file.contents) && x.lifetime != lifetime ==> x in file.contents
    // the picked record: clock behind it, live, or outdated
    ensures selected.Some? && now < selected.value.recordTime ==>
      outcome == ClockPanic && file.contents == old(file.contents)
    ensures selected.Some? && now >= selected.value.recordTime && !IsOutdated(selected.value, lifetime, now) ==>
      outcome == Done && file.contents == old(file.contents)
    ensures selected.Some? && now >= selected.value.recordTime && IsOutdated(selected.value, lifetime, now) ==>
      (outcome == Done <==> !faults.secondOpen && !faults.remove && !faults.dump) &&
      (outcome == Done ==> file.contents == old(file.contents) - {selected.value}) &&
      (outcome != Done ==> outcome == Failed(OtherDbError) && file.contents == old(file.contents))
    ensures selected.Some? ==>
      PickResult(old(file.contents), file.contents, lifetime, now, faults, outcome, selected.value)
    ensures CleanResult(old(file.contents), file.contents, lifetime, now, faults, outcome)
    ensures CleanStep(old(file.contents), file.contents, lifetime, now)
  {
    selected := None;
    var handle := AutoFrom(file, faults.firstOpen);
    if handle.Err? {
      return Failed(handle.error), None;
    }
    var db := handle.value;
    var found := db.QueryItem((s: ClientInfoRecord) => s.lifetime, lifetime);
    if found.Err? {
      return Failed(found.error), None;
    }
    var item := found.value;
    selected := Some(item);
    if now < item.recordTime {
      return ClockPanic, selected;
    }
    if IsOutdated(item, lifetime, now) {
      var reopened := AutoFrom(file, faults.secondOpen);
      if reopened.Err? {
        return Failed(reopened.error), selected;
      }
      var db2 := reopened.value;
      assert item in db2.items;
      var removed := db2.RemoveItem(item, faults.remove);
      if removed.Err? {
        return Failed(removed.error), selected;
      }
      var dumped := db2.DumpDb(faults.dump);
      if dumped.Err? {
        return Failed(dumped.error), selected;
      }
    }
    outcome := Done;
  }
}
