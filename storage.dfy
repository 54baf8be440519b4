/**
  * An in-memory stand-in for the GORM repositories of
  * internal/repository/postgres. A `Table` is a map from identifier to
  * record. `nextId` plays the part of `uuid.New()` / `gen_random_uuid()`:
  * it is above every key, so the identifier it hands out is fresh, and no
  * record is ever stored under the zero identifier `Nil`.
  * `readFault` and `writeFault` stand for a database that fails: when set,
  * every query (resp. every write) returns that error and changes nothing.
  */
module Storage {
  import opened Wrappers
  import opened Errors
  import opened Domain

  /** The keys of `m`, among `keys`, that hold `x`, counted only when `keep(x)`. */
  ghost function Holders<R>(m: map<Id, R>, keys: set<Id>, x: R, keep: R -> bool): set<Id>
  {
    set k | k in keys && k in m && m[k] == x && keep(x)
  }

  /**
    * `rs` lists the records of `m` that satisfy `keep`, in some order:
    * each record occurs as often as there are keys holding it.
    */
  ghost predicate Lists<R(!new)>(rs: seq<R>, m: map<Id, R>, keep: R -> bool)
  {
    forall x :: multiset(rs)[x] == |Holders(m, m.Keys, x, keep)|
  }

  /** Two listings of the same records differ at most in order. */
  lemma ListingsArePermutations<R(!new)>(a: seq<R>, b: seq<R>, m: map<Id, R>, keep: R -> bool)
    requires Lists(a, m, keep) && Lists(b, m, keep)
    ensures multiset(a) == multiset(b)
  {
    assert forall x :: multiset(a)[x] == multiset(b)[x];
  }

  /** Adding one more key to the scanned set adds at most that key. */
  lemma HoldersStep<R>(m: map<Id, R>, done: set<Id>, k: Id, x: R, keep: R -> bool)
    requires k in m && k !in done
    ensures |Holders(m, done + {k}, x, keep)|
            == |Holders(m, done, x, keep)| + (if m[k] == x && keep(x) then 1 else 0)
  {
    if m[k] == x && keep(x) {
      assert Holders(m, done + {k}, x, keep) == Holders(m, done, x, keep) + {k};
    } else {
      assert Holders(m, done + {k}, x, keep) == Holders(m, done, x, keep);
    }
  }

  /** GORM's `First` convention: a missing record is the error ErrRecordNotFound. */
  function Required<R>(r: Result<Option<R>>): (q: Result<R>)
    ensures r == Success(None) ==> q == Failure(Db(RecordNotFound))
    ensures r.Success? && r.value.Some? ==> q == Success(r.value.value)
    ensures r.Failure? ==> q == Failure(r.error)
  {
    match r
    case Failure(e) => Failure(e)
    case Success(None) => Failure(Db(RecordNotFound))
    case Success(Some(x)) => Success(x)
  }

  class Table<R(==,!new)> {
    var records: map<Id, R>
    var nextId: Id
    var readFault: Option<DbError>
    var writeFault: Option<DbError>

    ghost predicate Valid()
      reads this
    {
      Nil < nextId && forall k :: k in records ==> Nil < k < nextId
    }

    constructor ()
      ensures Valid() && records == map[] && readFault == None && writeFault == None
    {
      records := map[];
      nextId := 1;
      readFault := None;
      writeFault := None;
    }

    /** A fresh, non-Nil identifier (`uuid.New()`). */
    method NewId() returns (id: Id)
      requires Valid()
      modifies this`nextId
      ensures Valid()
      ensures id != Nil && id !in records && nextId == id + 1 && id == old(nextId)
    {
      id := nextId;
      nextId := nextId + 1;
    }

    /** `Create`: an INSERT under the key handed out by `NewId`, refused on a duplicate primary key. */
    method Create(id: Id, r: R) returns (err: Option<Error>)
      requires Valid() && id != Nil
      modifies this`records, this`nextId
      ensures Valid()
      ensures old(writeFault).Some? ==> err == Some(Db(writeFault.value)) && records == old(records)
      ensures writeFault.None? && id in old(records) ==> err == Some(Db(UniqueViolation)) && records == old(records)
      ensures writeFault.None? && id !in old(records) ==> err == None && records == old(records)[id := r]
    {
      if writeFault.Some? {
        return Some(Db(writeFault.value));
      }
      if id in records {
        return Some(Db(UniqueViolation));
      }
      records := records[id := r];
      nextId := Max(nextId, id + 1);
      err := None;
    }

    /**
      * `Save` of a record whose primary key is set: an upsert that writes
      * the whole record under `id`, inserting it when absent. GORM turns
      * `Save` of a record whose key is the zero value into `Create`, and the
      * database then generates the key; that is `NewId` followed by
      * `Create`, written out where it can happen
      * (`MilestoneService.UpdateMilestone`).
      */
    method Save(id: Id, r: R) returns (err: Option<Error>)
      requires Valid() && id != Nil
      modifies this`records, this`nextId
      ensures Valid()
      ensures writeFault.Some? ==> err == Some(Db(writeFault.value)) && records == old(records)
      ensures writeFault.None? ==> err == None && records == old(records)[id := r]
    {
      if writeFault.Some? {
        return Some(Db(writeFault.value));
      }
      records := records[id := r];
      nextId := Max(nextId, id + 1);
      err := None;
    }

    /** `Delete`: removing a missing row is not an error. */
    method Delete(id: Id) returns (err: Option<Error>)
      requires Valid()
      modifies this`records
      ensures Valid()
      ensures writeFault.Some? ==> err == Some(Db(writeFault.value)) && records == old(records)
      ensures writeFault.None? ==> err == None && records == old(records) - {id}
    {
      if writeFault.Some? {
        return Some(Db(writeFault.value));
      }
      records := records - {id};
      err := None;
    }

    /** `FindByID` returning `(nil, nil)` for a missing row. */
    method Lookup(id: Id) returns (r: Result<Option<R>>)
      ensures readFault.Some? ==> r == Failure(Db(readFault.value))
      ensures readFault.None? && id in records ==> r == Success(Some(records[id]))
      ensures readFault.None? && id !in records ==> r == Success(None)
    {
      if readFault.Some? {
        return Failure(Db(readFault.value));
      }
      if id in records {
        r := Success(Some(records[id]));
      } else {
        r := Success(None);
      }
    }

    /** A `Where(...).Find(...)` query: every record satisfying `keep`. */
    method Where(keep: R -> bool) returns (r: Result<seq<R>>)
      ensures readFault.Some? ==> r == Failure(Db(readFault.value))
      ensures readFault.None? ==> r.Success? && Lists(r.value, records, keep)
    {
      if readFault.Some? {
        return Failure(Db(readFault.value));
      }
      var rest := records.Keys;
      var found: seq<R> := [];
      while rest != {}
        invariant rest <= records.Keys
        invariant forall x :: multiset(found)[x] == |Holders(records, records.Keys - rest, x, keep)|
        decreases rest
      {
        var k :| k in rest;
        var done := records.Keys - rest;
        var next := if keep(records[k]) then found + [records[k]] else found;
        forall x
          ensures multiset(next)[x] == |Holders(records, done + {k}, x, keep)|
        {
          HoldersStep(records, done, k, x, keep);
        }
        assert records.Keys - (rest - {k}) == done + {k};
        found := next;
        rest := rest - {k};
      }
      assert records.Keys - rest == records.Keys;
      r := Success(found);
    }

    /**
      * A `Where(...).First(...)` query: the record with the least key among
      * those satisfying `keep`, or `None` when there is none.
      */
    method FirstWhere(keep: R -> bool) returns (r: Result<Option<R>>)
      ensures readFault.Some? ==> r == Failure(Db(readFault.value))
      ensures readFault.None? ==> r.Success?
      ensures r == Success(None) ==> forall k :: k in records ==> !keep(records[k])
      ensures r.Success? && r.value.Some? ==>
        exists k :: k in records && records[k] == r.value.value && keep(records[k]) &&
          forall j :: j in records && keep(records[j]) ==> k <= j
    {
      if readFault.Some? {
        return Failure(Db(readFault.value));
      }
      var rest := records.Keys;
      var best: Option<Id> := None;
      while rest != {}
        invariant rest <= records.Keys
        invariant best.Some? ==> best.value in records && keep(records[best.value])
        invariant best.Some? ==> forall j :: j in records && j !in rest && keep(records[j]) ==> best.value <= j
        invariant best.None? ==> forall j :: j in records && j !in rest ==> !keep(records[j])
        decreases rest
      {
        var k :| k in rest;
        if keep(records[k]) && (best.None? || k < best.value) {
          best := Some(k);
        }
        rest := rest - {k};
      }
      if best.Some? {
        r := Success(Some(records[best.value]));
      } else {
        r := Success(None);
      }
    }
  }
}
