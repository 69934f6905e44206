/** The submit handler as straight-line code over the repository; `SubmitProtocol` treats the
    interleavings of many such calls. */
module SubmitHandler {
  import opened Wrappers
  import opened ExtractionRows
  import opened ExtractionRepository

  datatype SubmitOutcome =
    | Existing(id: string)      // answered with an earlier row
    | Created(id: string)       // inserted, event published
    | Unpublished(id: string)   // inserted, publishing raised
    | Invalid                   // the request validator found errors
    | Raised                    // the integrity error went through to the caller

  /** Rows stay, and keep their keys. */
  ghost predicate KeysKept(before: map<string, Row>, after: map<string, Row>) {
    forall j :: j in before ==> j in after && after[j].key == before[j].key
  }

  lemma KeysKeptThrough(one: map<string, Row>, two: map<string, Row>, three: map<string, Row>)
    requires KeysKept(one, two) && KeysKept(two, three)
    ensures KeysKept(one, three)
  {
  }

  ghost predicate HasKey(rows: map<string, Row>, j: string, key: Option<string>) {
    j in rows && key.Some? && rows[j].key == key
  }

  predicate Truthy(key: Option<string>) { key.Some? && key.value != "" }

  /** What the insert and its `except` branch come to: a new row, the winner of a lost race, or, for a
      key the truth test takes for none, the integrity error. */
  ghost predicate Persisted(before: map<string, Row>, after: map<string, Row>, id: string, key: Option<string>,
                            r: SubmitOutcome) {
    match r
    case Created(i) => i == id && id in after && after[id].key == key && forall j :: !HasKey(before, j, key)
    case Existing(i) => i != id && id !in after && HasKey(after, i, key) && Truthy(key)
    case Raised => id !in after && key == Some("")
    case _ => false
  }

  /** The `try` statement of the handler. */
  method Persist(repository: Repository, id: string, key: Option<string>, now: int) returns (r: SubmitOutcome)
    requires repository.Valid() && id !in repository.rows
    modifies repository
    ensures repository.Valid() && KeysKept(old(repository.rows), repository.rows)
    ensures Persisted(old(repository.rows), repository.rows, id, key, r)
    ensures r.Created? ==> repository.rows == old(repository.rows)[id := FreshRow(key, now)]
  {
    var added := repository.Add(id, key, now);
    if added.Inserted? {
      return Created(id);
    }
    if !Truthy(key) {
      return Raised;
    }
    OtherClients(repository, id);
    var winner := repository.GetByIdempotencyKey(key.value);
    // The source re-raises when the winner is gone; rows are never deleted, so it is not.
    assert winner.Some?;
    r := Existing(winner.value);
  }

  /** A row that had the key before the insert decides the outcome. */
  lemma EarlierRowDecides(start: map<string, Row>, before: map<string, Row>, after: map<string, Row>,
                          id: string, key: Option<string>, r: SubmitOutcome, j: string)
    requires UniqueKeys(after) && KeysKept(start, before) && KeysKept(before, after)
    requires Persisted(before, after, id, key, r) && HasKey(start, j, key)
    ensures r == if Truthy(key) then Existing(j) else Raised
  {
    assert HasKey(before, j, key) && HasKey(after, j, key);
  }

  /** Persists at most one row per key and answers with it, with other clients active between
      any two statements. A row of this key present at the start is what the caller gets; if the
      insert loses a race the winner is found; only the empty key, which the truth tests take
      for no key while the unique index takes it for one, can raise. */
  method Submit(repository: Repository, id: string, key: Option<string>, valid: bool, now: int, busUp: bool)
    returns (r: SubmitOutcome)
    requires repository.Valid() && id !in repository.rows
    modifies repository
    ensures repository.Valid()
    ensures KeysKept(old(repository.rows), repository.rows)
    ensures r.Existing? ==> r.id != id && key.Some? && r.id in repository.rows && repository.rows[r.id].key == key
    ensures r.Created? || r.Unpublished? ==> r.id == id && id in repository.rows && repository.rows[id].key == key
    ensures id in repository.rows <==> r.Created? || r.Unpublished?
    ensures r.Raised? ==> key == Some("")
    ensures r.Invalid? ==> !valid
    ensures !valid ==> r.Invalid? || r.Existing?
    ensures (r.Created? ==> busUp) && (r.Unpublished? ==> !busUp)
    ensures forall j :: HasKey(old(repository.rows), j, key) ==>
              r == if Truthy(key) then Existing(j) else if valid then Raised else Invalid
  {
    if Truthy(key) {
      var existing := repository.GetByIdempotencyKey(key.value);
      if existing.Some? {
        return Existing(existing.value);
      }
    }
    if !valid {
      return Invalid;
    }
    ghost var start := repository.rows;
    OtherClients(repository, id);
    ghost var before := repository.rows;
    r := Persist(repository, id, key, now);
    ghost var after := repository.rows;
    KeysKeptThrough(start, before, after);
    forall j | HasKey(start, j, key) ensures r == if Truthy(key) then Existing(j) else Raised {
      EarlierRowDecides(start, before, after, id, key, r, j);
    }
    if r.Created? {
      OtherClients(repository, id);
      KeysKeptThrough(start, after, repository.rows);
      r := if busUp then Created(id) else Unpublished(id);
    }
  }
}
