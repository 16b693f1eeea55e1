/** Internal keys, their order, and what reading a database means.

    A user key is modelled by its rank under the user comparator: the code only ever compares
    user keys, and the finitely many keys of a run embed into the integers with their order. */
module DbFormat {
  type UserKey = int
  type Value = string

  datatype Option<T> = None | Some(value: T)

  datatype ValueType = Deletion | Put

  /** kMaxSequenceNumber: sequence numbers are packed above an eight-bit type. */
  const MAX_SEQUENCE: nat := 0xFF_FFFF_FFFF_FFFF

  type SequenceNumber = n: nat | n <= MAX_SEQUENCE

  datatype InternalKey = InternalKey(user: UserKey, sn: SequenceNumber, kind: ValueType) {
    /** PackSequenceAndType. */
    function Tag(): nat { 256 * sn + (if kind.Put? then 1 else 0) }
  }

  datatype Entry = Entry(user: UserKey, sn: SequenceNumber, kind: ValueType, value: Value) {
    function Key(): InternalKey { InternalKey(user, sn, kind) }
  }

  /** One operation of a write batch. */
  datatype Update = Update(user: UserKey, kind: ValueType, value: Value)

  /** InternalKeyComparator::Compare(a, b) < 0: increasing user key, then decreasing tag. */
  predicate Less(a: InternalKey, b: InternalKey) {
    a.user < b.user || (a.user == b.user && a.Tag() > b.Tag())
  }

  /** Entries in table order. No user key carries one sequence number twice. */
  predicate Ordered(a: Entry, b: Entry) {
    a.user < b.user || (a.user == b.user && a.sn > b.sn)
  }

  predicate Sorted(es: seq<Entry>) {
    forall i, j :: 0 <= i < j < |es| ==> Ordered(es[i], es[j])
  }

  /** LookupKey: the earliest internal key of `user` that snapshot `sn` may see. */
  function LookupKey(user: UserKey, sn: SequenceNumber): InternalKey { InternalKey(user, sn, Put) }

  /** The entries before a lookup key are those of smaller user keys and those too new to see. */
  lemma LookupKeySplits(e: Entry, user: UserKey, sn: SequenceNumber)
    ensures Less(e.Key(), LookupKey(user, sn)) <==> e.user < user || (e.user == user && e.sn > sn)
  {}

  function Elements<T>(s: seq<T>): set<T> { set x | x in s }

  // ---------- What a read at a snapshot means ----------

  ghost predicate SeqUnique(db: set<Entry>) {
    forall a, b :: a in db && b in db && a.user == b.user && a.sn == b.sn ==> a == b
  }

  ghost predicate Visible(e: Entry, k: UserKey, s: nat) { e.user == k && e.sn <= s }

  ghost predicate NoneVisible(db: set<Entry>, k: UserKey, s: nat) {
    forall x :: x in db ==> !Visible(x, k, s)
  }

  /** `e` is the newest entry of `k` that snapshot `s` sees in `db`. */
  ghost predicate Newest(db: set<Entry>, k: UserKey, s: nat, e: Entry) {
    && e in db && Visible(e, k, s)
    && forall x :: x in db && Visible(x, k, s) ==> x.sn <= e.sn
  }

  function Answer(e: Entry): Option<Value> { if e.kind.Put? then Some(e.value) else None }

  lemma NewestExists(db: set<Entry>, k: UserKey, s: nat)
    requires !NoneVisible(db, k, s)
    ensures exists e :: Newest(db, k, s, e)
  {
    var x :| x in db && Visible(x, k, s);
    while exists y :: y in db && Visible(y, k, s) && y.sn > x.sn
      invariant x in db && Visible(x, k, s)
      decreases s - x.sn
    {
      var y :| y in db && Visible(y, k, s) && y.sn > x.sn;
      x := y;
    }
    assert Newest(db, k, s, x);
  }

  /** The specification of every read: the newest entry of `k` with sequence at most `s`. */
  ghost function Read(db: set<Entry>, k: UserKey, s: nat): Option<Value> {
    if NoneVisible(db, k, s) then None
    else
      NewestExists(db, k, s);
      var e :| Newest(db, k, s, e);
      Answer(e)
  }

  lemma ReadIs(db: set<Entry>, k: UserKey, s: nat, e: Entry)
    requires SeqUnique(db) && Newest(db, k, s, e)
    ensures Read(db, k, s) == Answer(e)
  {}

  /** Adding entries a snapshot cannot see does not change what it reads. */
  lemma ReadIgnoresInvisible(db: set<Entry>, more: set<Entry>, k: UserKey, s: nat)
    requires SeqUnique(db + more)
    requires NoneVisible(more, k, s)
    ensures Read(db + more, k, s) == Read(db, k, s)
  {
    if !NoneVisible(db, k, s) {
      NewestExists(db, k, s);
      var e :| Newest(db, k, s, e);
      assert Newest(db + more, k, s, e);
      assert SeqUnique(db);
    }
  }
}
