/**
 Internal keys and the abstract meaning of a collection of entries.

 A user key is modelled by its rank in the order of the user-supplied comparator.
 Byte strings are countable and every countable total order embeds in the reals, so
 `real` stands for any comparator; db/ only ever compares user keys.
 */
module Keys {

  datatype Option<+T> = None | Some(value: T)

  type UserKey = real

  datatype ValueType = TypeDeletion | TypeValue

  const MAX_SEQUENCE: nat := 0xFF_FFFF_FFFF_FFFF
  const VALUE_TYPE_FOR_SEEK: ValueType := TypeValue

  // Sequence number and type packed into one 64-bit tag.
  function PackSequenceAndType(sequence: nat, kind: ValueType): nat {
    sequence * 256 + if kind.TypeValue? then 1 else 0
  }

  datatype InternalKey = InternalKey(user: UserKey, sequence: nat, kind: ValueType) {
    function Tag(): nat { PackSequenceAndType(sequence, kind) }
  }

  // InternalKeyComparator::Compare: increasing user key, then decreasing tag.
  predicate Less(a: InternalKey, b: InternalKey) {
    a.user < b.user || (a.user == b.user && a.Tag() > b.Tag())
  }

  // The earliest internal key a reader at sequence number s may see for user key u.
  function SeekKey(u: UserKey, s: nat): InternalKey {
    InternalKey(u, s, VALUE_TYPE_FOR_SEEK)
  }

  datatype Entry = Entry(key: InternalKey, value: string)

  ghost predicate Sorted(es: seq<Entry>) {
    forall i, j | 0 <= i < j < |es| :: Less(es[i].key, es[j].key)
  }

  // Every entry carries a legal sequence number.
  ghost predicate Legal(es: seq<Entry>) {
    forall e | e in es :: e.key.sequence <= MAX_SEQUENCE
  }

  // ---------------------------------------------------------------------------
  // Meaning: the newest entry a snapshot may see
  // ---------------------------------------------------------------------------

  ghost predicate VisibleAt(e: Entry, u: UserKey, s: nat) {
    e.key.user == u && e.key.sequence <= s
  }

  ghost predicate AnyVisible(es: set<Entry>, u: UserKey, s: nat) {
    exists e :: e in es && VisibleAt(e, u, s)
  }

  ghost predicate Newest(es: set<Entry>, u: UserKey, s: nat, e: Entry) {
    && e in es
    && VisibleAt(e, u, s)
    && forall x | x in es && VisibleAt(x, u, s) :: x.key.sequence <= e.key.sequence
  }

  // Two different entries never share a user key and a sequence number.
  ghost predicate SeqUnique(es: set<Entry>) {
    forall a, b | a in es && b in es && a.key.user == b.key.user && a.key.sequence == b.key.sequence :: a == b
  }

  function Outcome(e: Entry): Option<string> {
    if e.key.kind.TypeValue? then Some(e.value) else None
  }

  // What a reader of user key u at snapshot s is owed by the entries es.
  ghost function Read(es: set<Entry>, u: UserKey, s: nat): Option<string> {
    if exists e :: Newest(es, u, s, e) then
      var e :| Newest(es, u, s, e);
      Outcome(e)
    else
      None
  }

  lemma {:induction false} NewestExists(es: set<Entry>, u: UserKey, s: nat) returns (e: Entry)
    requires AnyVisible(es, u, s)
    ensures Newest(es, u, s, e)
    decreases es
  {
    e :| e in es && VisibleAt(e, u, s);
    var rest := es - {e};
    if AnyVisible(rest, u, s) {
      var e' := NewestExists(rest, u, s);
      if e'.key.sequence > e.key.sequence {
        e := e';
      }
    }
    forall x | x in es && VisibleAt(x, u, s)
      ensures x.key.sequence <= e.key.sequence
    {
      if x !in rest {
      } else {
        assert AnyVisible(rest, u, s);
      }
    }
  }

  lemma ReadOfNewest(es: set<Entry>, u: UserKey, s: nat, e: Entry)
    requires SeqUnique(es) && Newest(es, u, s, e)
    ensures Read(es, u, s) == Outcome(e)
  {
    assert exists x :: Newest(es, u, s, x);
    forall x | Newest(es, u, s, x)
      ensures x == e
    {
      assert VisibleAt(x, u, s) && VisibleAt(e, u, s);
    }
  }

  ghost function ToSet(es: seq<Entry>): set<Entry> {
    set e | e in es
  }
}
