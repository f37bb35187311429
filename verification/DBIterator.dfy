/**
 DBIter of db/db_iter.cc: from internal entries to the user's view of one snapshot.
 */
module DBIterator {
  import opened Keys
  import opened Iterators
  import opened Merger

  // ---------------------------------------------------------------------------
  // The view: user keys whose newest visible entry is a value
  // ---------------------------------------------------------------------------

  predicate Seen(es: seq<Entry>, s: nat, i: nat)
    requires i < |es|
  {
    es[i].key.sequence <= s
  }

  // Entry i is the newest one of its user key that a reader at s may see.
  ghost predicate Leads(es: seq<Entry>, s: nat, i: nat)
    requires i < |es|
  {
    Seen(es, s, i) && forall j | 0 <= j < i && es[j].key.user == es[i].key.user :: !Seen(es, s, j)
  }

  ghost predicate Yielded(es: seq<Entry>, s: nat, i: nat)
    requires i < |es|
  {
    Leads(es, s, i) && es[i].key.kind.TypeValue?
  }

  // What the first n entries contribute to the view.
  ghost function View(es: seq<Entry>, s: nat, n: nat): (v: seq<(UserKey, string)>)
    requires n <= |es|
  {
    if n == 0 then []
    else View(es, s, n - 1) + if Yielded(es, s, n - 1) then [(es[n - 1].key.user, es[n - 1].value)] else []
  }

  lemma {:induction false} ViewMonotone(es: seq<Entry>, s: nat, m: nat, n: nat)
    requires m <= n <= |es|
    ensures View(es, s, m) <= View(es, s, n)
    decreases n - m
  {
    if m < n {
      ViewMonotone(es, s, m, n - 1);
    }
  }

  lemma {:induction false} ViewSkips(es: seq<Entry>, s: nat, m: nat, n: nat)
    requires m <= n <= |es|
    requires forall i | m <= i < n :: !Yielded(es, s, i)
    ensures View(es, s, m) == View(es, s, n)
    decreases n - m
  {
    if m < n {
      ViewSkips(es, s, m, n - 1);
    }
  }

  lemma {:induction false} ViewMembers(es: seq<Entry>, s: nat, n: nat)
    requires n <= |es|
    ensures forall p :: p in View(es, s, n) <==>
              exists i :: 0 <= i < n && Yielded(es, s, i) && p == (es[i].key.user, es[i].value)
  {
    if n > 0 {
      ViewMembers(es, s, n - 1);
    }
  }

  lemma LeadersAscend(es: seq<Entry>, s: nat, i: nat, j: nat)
    requires Sorted(es) && i < j < |es| && Leads(es, s, i) && Leads(es, s, j)
    ensures es[i].key.user < es[j].key.user
  {
    assert Less(es[i].key, es[j].key);
  }

  ghost predicate Ascending(v: seq<(UserKey, string)>) {
    forall a, b | 0 <= a < b < |v| :: v[a].0 < v[b].0
  }

  lemma {:induction false} ViewSorted(es: seq<Entry>, s: nat, n: nat)
    requires Sorted(es) && n <= |es|
    ensures Ascending(View(es, s, n))
  {
    if n > 0 {
      ViewSorted(es, s, n - 1);
      ViewMembers(es, s, n - 1);
      var v := View(es, s, n - 1);
      if Yielded(es, s, n - 1) {
        forall a | 0 <= a < |v|
          ensures v[a].0 < es[n - 1].key.user
        {
          assert v[a] in v;
          var i :| 0 <= i < n - 1 && Yielded(es, s, i) && v[a] == (es[i].key.user, es[i].value);
          LeadersAscend(es, s, i, n - 1);
        }
      } else {
        assert View(es, s, n) == v;
      }
    }
  }

  // The view is the snapshot: it pairs u with a value exactly when reading u at s gives that value.
  lemma ViewIsSnapshot(es: seq<Entry>, s: nat, u: UserKey, value: string)
    requires Sorted(es) && SeqUnique(ToSet(es))
    ensures (u, value) in View(es, s, |es|) <==> Read(ToSet(es), u, s) == Some(value)
  {
    ViewMembers(es, s, |es|);
    var all := ToSet(es);
    if AnyVisible(all, u, s) {
      var e := NewestExists(all, u, s);
      ReadOfNewest(all, u, s, e);
      var k :| 0 <= k < |es| && es[k] == e;
      NewestLeads(es, s, k);
      forall i | 0 <= i < |es| && Leads(es, s, i) && es[i].key.user == u
        ensures i == k
      {
      }
    } else {
      forall i | 0 <= i < |es| && Leads(es, s, i)
        ensures es[i].key.user != u
      {
        assert es[i] in all;
      }
    }
  }

  lemma NewestLeads(es: seq<Entry>, s: nat, k: nat)
    requires Sorted(es) && SeqUnique(ToSet(es)) && k < |es|
    requires Newest(ToSet(es), es[k].key.user, s, es[k])
    ensures Leads(es, s, k)
  {
    forall j | 0 <= j < k && es[j].key.user == es[k].key.user
      ensures !Seen(es, s, j)
    {
      assert Less(es[j].key, es[k].key);
      assert es[j] in ToSet(es) && es[k] in ToSet(es);
    }
  }

  // ---------------------------------------------------------------------------
  // Moving between yielded entries
  // ---------------------------------------------------------------------------

  // c is the first yielded entry at or after lo, or the end.
  ghost predicate FirstFrom(es: seq<Entry>, s: nat, lo: nat, c: nat) {
    && lo <= c <= |es|
    && (c < |es| ==> Yielded(es, s, c))
    && forall i | lo <= i < c :: !Yielded(es, s, i)
  }

  // c is the last yielded entry before hi, or the end when there is none.
  ghost predicate LastBefore(es: seq<Entry>, s: nat, hi: nat, c: nat) {
    && hi <= |es|
    && (c < hi || c == |es|)
    && (c < |es| ==> Yielded(es, s, c))
    && forall i | 0 <= i < hi && (c == |es| || c < i) :: !Yielded(es, s, i)
  }

  // p is the last entry before c that s may see, or the end when there is none.
  ghost predicate LastSeenBefore(es: seq<Entry>, s: nat, c: nat, p: nat) {
    && c <= |es|
    && (p < c || p == |es|)
    && (p < |es| ==> Seen(es, s, p))
    && forall i | 0 <= i < c && (p == |es| || p < i) :: !Seen(es, s, i)
  }

  // Positions in the view.
  lemma {:induction false} AtPosition(es: seq<Entry>, s: nat, c: nat)
    requires c <= |es|
    ensures c < |es| && Yielded(es, s, c) ==>
              && |View(es, s, c)| < |View(es, s, |es|)|
              && View(es, s, |es|)[|View(es, s, c)|] == (es[c].key.user, es[c].value)
              && |View(es, s, c + 1)| == |View(es, s, c)| + 1
  {
    if c < |es| {
      ViewMonotone(es, s, c + 1, |es|);
    }
  }

  lemma {:induction false} FirstFromPosition(es: seq<Entry>, s: nat, lo: nat, c: nat)
    requires FirstFrom(es, s, lo, c)
    ensures |View(es, s, c)| == |View(es, s, lo)|
  {
    ViewSkips(es, s, lo, c);
  }

  lemma {:induction false} LastBeforePosition(es: seq<Entry>, s: nat, hi: nat, c: nat)
    requires LastBefore(es, s, hi, c)
    ensures if c == |es| then |View(es, s, hi)| == 0 else |View(es, s, hi)| == |View(es, s, c)| + 1
  {
    if c == |es| {
      ViewSkips(es, s, 0, hi);
    } else {
      ViewSkips(es, s, c + 1, hi);
      AtPosition(es, s, c);
    }
  }

  lemma {:induction false} SeekPositionInView(es: seq<Entry>, s: nat, target: UserKey, c: nat)
    requires Sorted(es) && c <= |es|
    requires forall i | 0 <= i < c && Yielded(es, s, i) :: es[i].key.user < target
    requires c < |es| ==> Yielded(es, s, c) && target <= es[c].key.user
    ensures var v, p := View(es, s, |es|), |View(es, s, c)|;
            && p <= |v|
            && (forall k | 0 <= k < p :: v[k].0 < target)
            && (forall k | p <= k < |v| :: target <= v[k].0)
  {
    ViewMonotone(es, s, c, |es|);
    ViewMembers(es, s, c);
    ViewSorted(es, s, |es|);
    AtPosition(es, s, c);
    var v, w := View(es, s, |es|), View(es, s, c);
    forall k | 0 <= k < |w|
      ensures v[k].0 < target
    {
      assert v[k] == w[k] && w[k] in w;
    }
  }

  class DBIter {
    const iter: MergingIterator
    const sequence: nat
    var savedKey: UserKey
    var savedValue: string
    var direction: Direction
    var valid: bool
    ghost var at: nat   // index of the entry that is yielded, |iter.all| when not valid

    ghost predicate Good()
      reads this, iter, iter.Parts()
    {
      var es := iter.all;
      && iter.Good()
      && at <= |es|
      && (valid <==> at < |es|)
      && (valid ==> Yielded(es, sequence, at))
      && (valid && direction.Forward? ==> iter.at == at)
      && (valid && direction.Reverse? ==>
            && savedKey == es[at].key.user && savedValue == es[at].value
            && LastSeenBefore(es, sequence, at, iter.at))
    }

    // How many keys of the view come before the current one.
    ghost function Position(): nat
      requires Good()
      reads this, iter, iter.Parts()
    {
      |View(iter.all, sequence, at)|
    }

    ghost function Keys(): seq<(UserKey, string)>
      reads this, iter, iter.Parts()
    {
      View(iter.all, sequence, |iter.all|)
    }

    constructor (iter: MergingIterator, sequence: nat)
      requires iter.Good()
      ensures Good() && this.iter == iter && this.sequence == sequence && !valid
    {
      this.iter, this.sequence := iter, sequence;
      savedKey, savedValue, direction, valid, at := 0.0, "", Forward, false, |iter.all|;
    }

    function Key(): UserKey
      requires valid && (direction.Forward? ==> iter.Good() && iter.Valid())
      reads this, iter, iter.Parts()
    {
      if direction.Forward? then iter.Current().key.user else savedKey
    }

    function Value(): string
      requires valid && (direction.Forward? ==> iter.Good() && iter.Valid())
      reads this, iter, iter.Parts()
    {
      if direction.Forward? then iter.Current().value else savedValue
    }

    // Skips ahead to the first entry to yield; with skipping, past all entries up to user key skip.
    method FindNextUserEntry(skipping0: bool, skip0: UserKey)
      requires iter.Good() && iter.Valid() && direction.Forward?
      requires ForwardScan(iter.all, sequence, iter.at, iter.at, skipping0, skip0, skipping0, skip0)
      modifies this, iter, iter.Parts()
      ensures Good() && direction.Forward?
      ensures old(iter.at) <= at
      ensures at < |iter.all| && skipping0 ==> skip0 < iter.all[at].key.user
      ensures forall i | old(iter.at) <= i < at && Yielded(iter.all, sequence, i) ::
                skipping0 && iter.all[i].key.user <= skip0
    {
      hide MergingIterator.Good, LastSeenBefore, Sorted, ForwardScan, Yielded;
      ghost var es, start := iter.all, iter.at;
      var skipping, skip := skipping0, skip0;
      while iter.Valid()
        invariant iter.Good() && direction.Forward?
        invariant ForwardScan(es, sequence, start, iter.at, skipping0, skip0, skipping, skip)
        decreases |es| - iter.at
      {
        ghost var p := iter.at;
        var ikey := iter.Current().key;
        if ikey.sequence <= sequence {
          match ikey.kind {
            case TypeDeletion =>
              ForwardDeletion(es, sequence, start, p, skipping0, skip0, skipping, skip);
              skip := ikey.user;
              skipping := true;
            case TypeValue =>
              if skipping && ikey.user <= skip {
                ForwardHidden(es, sequence, start, p, skipping0, skip0, skipping, skip);
              } else {
                ForwardFound(es, sequence, start, p, skipping0, skip0, skipping, skip);
                valid, at, savedKey := true, p, 0.0;
                return;
              }
          }
        } else {
          ForwardUnseen(es, sequence, start, p, skipping0, skip0, skipping, skip);
        }
        iter.Next();
      }
      savedKey, valid, at := 0.0, false, |es|;
      ForwardEnd(es, sequence, start, iter.at, skipping0, skip0, skipping, skip);
    }

    // Moves back to the last entry to yield at or before the cursor.
    method FindPrevUserEntry()
      requires iter.Good() && direction.Reverse?
      modifies this, iter, iter.Parts()
      ensures Good()
      ensures LastBefore(iter.all, sequence, if old(iter.Valid()) then old(iter.at) + 1 else 0, at)
      ensures valid ==> direction.Reverse?
    {
      hide MergingIterator.Good;
      ghost var es, hi := iter.all, if iter.Valid() then iter.at + 1 else 0;
      ghost var k: int := hi - 1;   // next index to look at, -1 at the end
      ghost var c: nat := |es|;     // entry whose key and value are saved
      var valueType := TypeDeletion;
      hide Sorted, Yielded;
      BackStart(es, sequence, hi);
      while iter.Valid()
        invariant iter.Good() && direction.Reverse? && -1 <= k < hi <= |es|
        invariant if iter.Valid() then iter.at == k else k == -1
        invariant BackScan(es, sequence, hi, k, c, valueType.TypeValue?)
        invariant valueType.TypeValue? ==> savedKey == es[c].key.user && savedValue == es[c].value
        decreases k
      {
        var ikey := iter.Current().key;
        if ikey.sequence <= sequence {
          if !valueType.TypeDeletion? && ikey.user < savedKey {
            break;
          }
          BackSeen(es, sequence, hi, k, c, valueType.TypeValue?);
          valueType := ikey.kind;
          if valueType.TypeDeletion? {
            savedKey, savedValue := 0.0, "";
          } else {
            savedKey, savedValue, c := ikey.user, iter.Current().value, k;
          }
        } else {
          BackUnseen(es, sequence, hi, k, c, valueType.TypeValue?);
        }
        iter.Prev();
        k := k - 1;
      }
      BackEnd(es, sequence, hi, k, c, valueType.TypeValue?);
      if valueType.TypeDeletion? {
        valid, savedKey, savedValue, direction, at := false, 0.0, "", Forward, |es|;
      } else {
        valid, at := true, c;
      }
    }

    // A valid iterator stands at a position of the view and yields what is there.
    lemma YieldsView()
      requires Good()
      ensures valid <==> Position() < |Keys()|
      ensures Position() <= |Keys()|
      ensures valid ==> (Key(), Value()) == Keys()[Position()]
    {
      AtPosition(iter.all, sequence, at);
    }

    method SeekToFirst()
      requires Good()
      modifies this, iter, iter.Parts()
      ensures Good() && FirstFrom(iter.all, sequence, 0, at)
      ensures Position() == 0
    {
      hide Yielded, Sorted, LastSeenBefore;
      direction, savedValue := Forward, "";
      iter.SeekToFirst();
      if iter.Valid() {
        ForwardStart(iter.all, sequence, iter.at, false, savedKey);
        FindNextUserEntry(false, savedKey);
      } else {
        valid, at := false, |iter.all|;
      }
      FirstFromPosition(iter.all, sequence, 0, at);
    }

    method SeekToLast()
      requires Good()
      modifies this, iter, iter.Parts()
      ensures Good() && LastBefore(iter.all, sequence, |iter.all|, at)
      ensures Position() == if |Keys()| == 0 then 0 else |Keys()| - 1
    {
      hide Yielded, Sorted, LastSeenBefore;
      direction, savedValue := Reverse, "";
      iter.SeekToLast();
      FindPrevUserEntry();
      LastBeforePosition(iter.all, sequence, |iter.all|, at);
    }

    method Seek(target: UserKey)
      requires Good()
      modifies this, iter, iter.Parts()
      ensures Good()
      ensures at < |iter.all| ==> target <= iter.all[at].key.user
      ensures forall i | 0 <= i < at && Yielded(iter.all, sequence, i) :: iter.all[i].key.user < target
      // the first key of the view at or after target
      ensures Position() <= |Keys()|
      ensures forall k | 0 <= k < Position() :: Keys()[k].0 < target
      ensures forall k | Position() <= k < |Keys()| :: target <= Keys()[k].0
    {
      hide MergingIterator.Good;
      direction, savedValue, savedKey := Forward, "", 0.0;
      iter.Seek(SeekKey(target, sequence));
      SeekPosition(iter.all, sequence, target, iter.at);
      if iter.Valid() {
        ForwardStart(iter.all, sequence, iter.at, false, savedKey);
        FindNextUserEntry(false, savedKey);
      } else {
        valid, at := false, |iter.all|;
      }
      SeekPositionInView(iter.all, sequence, target, at);
    }

    // Leaves the reverse direction: the cursor moves from in front of the current entry to what follows it.
    method TurnForward()
      requires Good() && valid && direction.Reverse?
      modifies this`direction, iter, iter.Parts()
      ensures iter.Good() && iter.Valid() && direction.Forward? && at < |iter.all| && Yielded(iter.all, sequence, at)
      ensures savedKey == iter.all[at].key.user
      ensures iter.at <= at && forall i | iter.at <= i < at :: !Seen(iter.all, sequence, i)
    {
      hide MergingIterator.Good, Yielded;
      direction := Forward;
      if !iter.Valid() {
        iter.SeekToFirst();
      } else {
        iter.Next();
      }
    }

    method Next()
      requires Good() && valid
      modifies this, iter, iter.Parts()
      ensures Good() && FirstFrom(iter.all, sequence, old(at) + 1, at)
      ensures Position() == old(Position()) + 1
    {
      hide MergingIterator.Good, Yielded, LastSeenBefore, ForwardScan, Sorted, Seen;
      ghost var es, c := iter.all, at;
      if direction.Reverse? {
        TurnForward();
        if !iter.Valid() {
          assert false;  // the cursor stands in front of the current entry
        }
      } else {
        savedKey := iter.Current().key.user;
      }
      SkipCurrent(es, sequence, c, iter.at);
      FindNextUserEntry(true, savedKey);
      NextIsFirst(es, sequence, c, at);
      AtPosition(es, sequence, c);
      FirstFromPosition(es, sequence, c + 1, at);
    }

    method Prev()
      requires Good() && valid
      modifies this, iter, iter.Parts()
      ensures Good() && LastBefore(iter.all, sequence, old(at), at)
      ensures if old(Position()) == 0 then !valid else valid && Position() == old(Position()) - 1
    {
      hide MergingIterator.Good;
      ghost var es, c := iter.all, at;
      AroundYielded(es, sequence, c);
      if direction.Forward? {
        savedKey := iter.Current().key.user;
        while true
          invariant iter.Good() && iter.Valid() && iter.at <= c && direction.Forward?
          invariant savedKey == es[c].key.user
          invariant forall i | iter.at <= i <= c :: es[i].key.user == savedKey
          decreases iter.at
        {
          iter.Prev();
          if !iter.Valid() {
            valid, savedKey, savedValue, at := false, 0.0, "", |es|;
            LastBeforePosition(es, sequence, c, at);
            return;
          }
          if iter.Current().key.user < savedKey {
            break;
          }
          assert Less(es[iter.at].key, es[c].key);
        }
        direction := Reverse;
      }
      FindPrevUserEntry();
      LastBeforePosition(es, sequence, c, at);
    }
  }

  // Scanning forward from start: entries before p are done. Keys up to skip are not to be yielded any more,
  // and a user key with an entry already seen is one of them.
  ghost predicate ForwardScan(es: seq<Entry>, s: nat, start: nat, p: nat, skipping0: bool, skip0: UserKey,
                              skipping: bool, skip: UserKey)
  {
    && start <= p <= |es|
    && (forall i | start <= i < p && Yielded(es, s, i) :: skipping0 && es[i].key.user <= skip0)
    && (skipping0 ==> skipping && skip0 <= skip)
    && (skipping ==> forall i | p <= i < |es| && Yielded(es, s, i) && (skipping0 ==> skip0 < es[i].key.user) ::
          skip < es[i].key.user)
    && (skipping0 ==> forall i | p <= i < |es| && Seen(es, s, i) :: skip0 <= es[i].key.user)
    && forall i, j | p <= i < |es| && 0 <= j < p && Seen(es, s, j) && es[j].key.user == es[i].key.user ::
         skipping && es[i].key.user <= skip
  }

  lemma ForwardStart(es: seq<Entry>, s: nat, start: nat, skipping: bool, skip: UserKey)
    requires start <= |es|
    requires forall i, j | start <= i < |es| && 0 <= j < start && Seen(es, s, j)
                           && es[j].key.user == es[i].key.user :: skipping && es[i].key.user <= skip
    requires skipping ==> forall i | start <= i < |es| && Seen(es, s, i) :: skip <= es[i].key.user
    ensures ForwardScan(es, s, start, start, skipping, skip, skipping, skip)
  {
  }

  lemma UserKeysAround(es: seq<Entry>, p: nat)
    requires Sorted(es) && p < |es|
    ensures forall i | p < i < |es| :: es[p].key.user <= es[i].key.user
    ensures forall j | 0 <= j < p :: es[j].key.user <= es[p].key.user
  {
    assert forall i | p < i < |es| :: Less(es[p].key, es[i].key);
    assert forall j | 0 <= j < p :: Less(es[j].key, es[p].key);
  }

  lemma ForwardUnseen(es: seq<Entry>, s: nat, start: nat, p: nat, skipping0: bool, skip0: UserKey,
                      skipping: bool, skip: UserKey)
    requires p < |es| && ForwardScan(es, s, start, p, skipping0, skip0, skipping, skip) && !Seen(es, s, p)
    ensures ForwardScan(es, s, start, p + 1, skipping0, skip0, skipping, skip)
  {
  }

  lemma ForwardDeletion(es: seq<Entry>, s: nat, start: nat, p: nat, skipping0: bool, skip0: UserKey,
                        skipping: bool, skip: UserKey)
    requires Sorted(es) && p < |es| && ForwardScan(es, s, start, p, skipping0, skip0, skipping, skip)
    requires Seen(es, s, p) && es[p].key.kind.TypeDeletion?
    ensures ForwardScan(es, s, start, p + 1, skipping0, skip0, true, es[p].key.user)
  {
    UserKeysAround(es, p);
    hide Sorted;
  }

  lemma ForwardHidden(es: seq<Entry>, s: nat, start: nat, p: nat, skipping0: bool, skip0: UserKey,
                      skipping: bool, skip: UserKey)
    requires Sorted(es) && p < |es| && ForwardScan(es, s, start, p, skipping0, skip0, skipping, skip)
    requires Seen(es, s, p) && skipping && es[p].key.user <= skip
    ensures ForwardScan(es, s, start, p + 1, skipping0, skip0, skipping, skip)
  {
    UserKeysAround(es, p);
    hide Sorted;
  }

  lemma ForwardFound(es: seq<Entry>, s: nat, start: nat, p: nat, skipping0: bool, skip0: UserKey,
                     skipping: bool, skip: UserKey)
    requires p < |es| && ForwardScan(es, s, start, p, skipping0, skip0, skipping, skip)
    requires Seen(es, s, p) && es[p].key.kind.TypeValue? && !(skipping && es[p].key.user <= skip)
    ensures Yielded(es, s, p) && (skipping0 ==> skip0 < es[p].key.user)
    ensures start <= p && forall i | start <= i < p && Yielded(es, s, i) :: skipping0 && es[i].key.user <= skip0
  {
  }

  lemma ForwardEnd(es: seq<Entry>, s: nat, start: nat, p: nat, skipping0: bool, skip0: UserKey,
                   skipping: bool, skip: UserKey)
    requires p == |es| && ForwardScan(es, s, start, p, skipping0, skip0, skipping, skip)
    ensures start <= |es| && forall i | start <= i < |es| && Yielded(es, s, i) :: skipping0 && es[i].key.user <= skip0
  {
  }

  // Scanning back from hi: indices above k are done. With a value saved, c is the newest entry seen so far
  // of its user key; nothing else above k can be yielded.
  ghost predicate BackScan(es: seq<Entry>, s: nat, hi: nat, k: int, c: nat, saved: bool)
    requires -1 <= k < hi <= |es|
  {
    && (saved ==> k < c < hi && Seen(es, s, c) && es[c].key.kind.TypeValue? && forall i | k < i < c :: !Seen(es, s, i))
    && forall i | k < i < hi && (!saved || i != c) :: !Yielded(es, s, i)
  }

  lemma BackStart(es: seq<Entry>, s: nat, hi: nat)
    requires hi <= |es|
    ensures BackScan(es, s, hi, hi - 1, |es|, false)
  {
  }

  lemma BackUnseen(es: seq<Entry>, s: nat, hi: nat, k: nat, c: nat, saved: bool)
    requires k < hi <= |es| && BackScan(es, s, hi, k, c, saved) && !Seen(es, s, k)
    ensures BackScan(es, s, hi, k - 1, c, saved)
  {
  }

  lemma BackSeen(es: seq<Entry>, s: nat, hi: nat, k: nat, c: nat, saved: bool)
    requires Sorted(es) && k < hi <= |es| && BackScan(es, s, hi, k, c, saved) && Seen(es, s, k)
    requires saved ==> es[c].key.user <= es[k].key.user
    ensures BackScan(es, s, hi, k - 1, if es[k].key.kind.TypeValue? then k else c, es[k].key.kind.TypeValue?)
  {
    if saved {
      assert Less(es[k].key, es[c].key);
    }
  }

  lemma BackEnd(es: seq<Entry>, s: nat, hi: nat, k: int, c: nat, saved: bool)
    requires Sorted(es) && -1 <= k < hi <= |es| && BackScan(es, s, hi, k, c, saved)
    requires k == -1 || (saved && Seen(es, s, k) && es[k].key.user < es[c].key.user)
    ensures saved ==> Yielded(es, s, c) && LastBefore(es, s, hi, c)
                      && LastSeenBefore(es, s, c, if k == -1 then |es| else k)
    ensures !saved ==> LastBefore(es, s, hi, |es|)
  {
    if saved {
      assert forall j | 0 <= j < k :: Less(es[j].key, es[k].key);
    }
  }

  // A seek for (target, s) stops in front of everything s may see for target or later keys.
  lemma SeekPosition(es: seq<Entry>, s: nat, target: UserKey, pos: nat)
    requires Sorted(es) && pos <= |es|
    requires forall k | 0 <= k < pos :: Less(es[k].key, SeekKey(target, s))
    requires pos < |es| ==> !Less(es[pos].key, SeekKey(target, s))
    ensures forall i | 0 <= i < pos && Seen(es, s, i) :: es[i].key.user < target
    ensures forall i | pos <= i < |es| :: target <= es[i].key.user
  {
    forall i | pos <= i < |es|
      ensures target <= es[i].key.user
    {
      assert pos < i ==> Less(es[pos].key, es[i].key);
    }
  }

  // Scanning on from the yielded entry c, or from unseen entries before it.
  lemma SkipCurrent(es: seq<Entry>, s: nat, c: nat, start: nat)
    requires Sorted(es) && c < |es| && Yielded(es, s, c) && start <= c && forall i | start <= i < c :: !Seen(es, s, i)
    ensures ForwardScan(es, s, start, start, true, es[c].key.user, true, es[c].key.user)
  {
    AroundYielded(es, s, c);
    ForwardStart(es, s, start, true, es[c].key.user);
  }

  // What was found past the user key of c is the first entry to yield after c.
  lemma NextIsFirst(es: seq<Entry>, s: nat, c: nat, next: nat)
    requires Sorted(es) && c < |es| && Yielded(es, s, c) && next <= |es|
    requires next < |es| ==> Yielded(es, s, next) && es[c].key.user < es[next].key.user
    requires forall i | c <= i < next && Yielded(es, s, i) :: es[i].key.user <= es[c].key.user
    ensures FirstFrom(es, s, c + 1, next)
  {
    AroundYielded(es, s, c);
  }

  // What surrounds a yielded entry c.
  lemma AroundYielded(es: seq<Entry>, s: nat, c: nat)
    requires Sorted(es) && c < |es| && Yielded(es, s, c)
    ensures forall i | 0 <= i < c :: es[i].key.user <= es[c].key.user
    ensures forall i | c < i < |es| :: es[c].key.user <= es[i].key.user
    ensures forall i | c < i < |es| && Yielded(es, s, i) :: es[c].key.user < es[i].key.user
  {
    assert forall i | 0 <= i < c :: Less(es[i].key, es[c].key);
    assert forall i | c < i < |es| :: Less(es[c].key, es[i].key);
  }
}
