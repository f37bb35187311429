/**
 Comparators: util/comparator.cc for byte strings, and the one db/dbformat.cc builds from it for internal keys.
 */
module Comparators {
  import opened ByteStrings

  // separator and successor are what FindShortestSeparator and FindShortSuccessor leave in their first argument.
  datatype Comparator = Comparator(less: (Bytes, Bytes) -> bool, separator: (Bytes, Bytes) -> Bytes,
                                   successor: Bytes -> Bytes)
  {
    // A strict weak order.
    ghost predicate Ordered() {
      && (forall a :: !less(a, a))
      && (forall a, b, c :: less(a, b) && less(b, c) ==> less(a, c))
      && (forall a, b, c :: less(a, c) ==> less(a, b) || less(b, c))
    }

    // What include/leveldb/comparator.h asks of the two shortening functions, and that a separator is left alone
    // when there is nothing to separate.
    ghost predicate Separates() {
      && (forall a, b :: less(a, b) ==> !less(separator(a, b), a) && less(separator(a, b), b))
      && (forall a, b :: !less(a, b) ==> separator(a, b) == a)
      && (forall a :: !less(successor(a), a))
    }

    ghost predicate Lawful() {
      Ordered() && Separates()
    }

    // No two different byte strings are equal to it.
    ghost predicate Distinguishes() {
      forall a, b :: !less(a, b) && !less(b, a) ==> a == b
    }
  }

  // ---------------------------------------------------------------------------
  // The bytewise comparator
  // ---------------------------------------------------------------------------

  // Slice::compare.
  predicate BytesLess(a: Bytes, b: Bytes) {
    if b == [] then false
    else if a == [] then true
    else if a[0] != b[0] then a[0] < b[0]
    else BytesLess(a[1..], b[1..])
  }

  function ShortestSeparator(start: Bytes, limit: Bytes): Bytes {
    var n := CommonPrefix(start, limit);
    if n < |start| && n < |limit| && start[n] < 0xff && start[n] + 1 < limit[n] then start[..n] + [start[n] + 1]
    else start
  }

  function ShortSuccessor(key: Bytes): Bytes {
    if key == [] then []
    else if key[0] != 0xff then [key[0] + 1]
    else [0xff] + ShortSuccessor(key[1..])
  }

  method FindShortestSeparator(start: Bytes, limit: Bytes) returns (r: Bytes)
    ensures r == ShortestSeparator(start, limit)
  {
    var minLength := if |start| < |limit| then |start| else |limit|;
    var diffIndex := 0;
    while diffIndex < minLength && start[diffIndex] == limit[diffIndex]
      invariant 0 <= diffIndex <= minLength && start[..diffIndex] == limit[..diffIndex]
    {
      diffIndex := diffIndex + 1;
    }
    LongestIsCommonPrefix(start, limit, diffIndex);
    r := start;
    if diffIndex < minLength {
      var diffByte := start[diffIndex];
      if diffByte < 0xff && diffByte + 1 < limit[diffIndex] {
        r := start[diffIndex := diffByte + 1];
        r := r[..diffIndex + 1];
        assert r == start[..diffIndex] + [diffByte + 1];
      }
    }
  }

  method FindShortSuccessor(key: Bytes) returns (r: Bytes)
    ensures r == ShortSuccessor(key)
  {
    hide ShortSuccessor;
    var i := 0;
    assert key[..0] + ShortSuccessor(key[0..]) == ShortSuccessor(key) by {
      assert key[0..] == key;
    }
    while i < |key|
      invariant 0 <= i <= |key|
      invariant ShortSuccessor(key) == key[..i] + ShortSuccessor(key[i..])
    {
      SuccessorStep(key, i);
      if key[i] != 0xff {
        r := key[i := key[i] + 1];
        r := r[..i + 1];
        assert r == key[..i] + [key[i] + 1];
        return;
      }
      i := i + 1;
    }
    SuccessorStep(key, i);
    assert key[..i] + [] == key;
    r := key;
  }

  lemma SuccessorStep(key: Bytes, i: nat)
    requires i <= |key|
    ensures i == |key| ==> ShortSuccessor(key[i..]) == []
    ensures i < |key| && key[i] != 0xff ==> ShortSuccessor(key[i..]) == [key[i] + 1]
    ensures i < |key| && key[i] == 0xff ==>
              key[..i] + ShortSuccessor(key[i..]) == key[..i + 1] + ShortSuccessor(key[i + 1..])
  {
    hide AllHigh;
    if i < |key| {
      var rest := key[i + 1..];
      assert key[i..] == [key[i]] + rest;
      SuccessorIs(key[i..]);
      hide ShortSuccessor;
      if key[i] == 0xff {
        assert key[..i + 1] == key[..i] + [0xff];
        assert key[i..][1..] == rest;
        assert key[..i] + ([0xff] + ShortSuccessor(rest)) == key[..i] + [0xff] + ShortSuccessor(rest);
      }
    }
  }

  lemma {:induction false} LessIsOrder(a: Bytes, b: Bytes, c: Bytes)
    ensures !BytesLess(a, a)
    ensures BytesLess(a, b) && BytesLess(b, c) ==> BytesLess(a, c)
    ensures a == b || BytesLess(a, b) || BytesLess(b, a)
    decreases |a| + |b| + |c|
  {
    if a != [] {
      LessIsOrder(a[1..], if b == [] then [] else b[1..], if c == [] then [] else c[1..]);
      assert a == [a[0]] + a[1..];
    }
    if b != [] {
      assert b == [b[0]] + b[1..];
    }
  }

  lemma SameFirst(first: Byte, a: Bytes, b: Bytes)
    ensures BytesLess([first] + a, [first] + b) <==> BytesLess(a, b)
  {
    assert ([first] + a)[1..] == a && ([first] + b)[1..] == b;
  }

  // The first difference decides.
  lemma {:induction false} FirstDifference(p: Bytes, a: Bytes, b: Bytes)
    ensures BytesLess(p + a, p + b) <==> BytesLess(a, b)
  {
    hide BytesLess;
    if p == [] {
      assert p + a == a && p + b == b;
    } else {
      FirstDifference(p[1..], a, b);
      assert p + a == [p[0]] + (p[1..] + a) && p + b == [p[0]] + (p[1..] + b);
      SameFirst(p[0], p[1..] + a, p[1..] + b);
    }
  }

  // FindShortestSeparator keeps its promise: a key at or after start, before limit, and no longer than start.
  lemma SeparatorSeparates(start: Bytes, limit: Bytes)
    ensures var r := ShortestSeparator(start, limit);
            && |r| <= |start|
            && (BytesLess(start, limit) ==> !BytesLess(r, start) && BytesLess(r, limit))
            && (!BytesLess(start, limit) ==> r == start)
  {
    hide CommonPrefix;
    var n := CommonPrefix(start, limit);
    var r := ShortestSeparator(start, limit);
    if r == start {
      LessIsOrder(start, start, start);
    } else {
      var p := start[..n];
      assert start == p + start[n..] && limit == p + limit[n..] && r == p + [start[n] + 1];
      FirstDifference(p, start[n..], limit[n..]);
      FirstDifference(p, [start[n] + 1], start[n..]);
      FirstDifference(p, [start[n] + 1], limit[n..]);
    }
  }

  lemma {:induction false} SuccessorSucceeds(key: Bytes)
    ensures !BytesLess(ShortSuccessor(key), key) && |ShortSuccessor(key)| <= |key|
  {
    if key != [] && key[0] == 0xff {
      SuccessorSucceeds(key[1..]);
      assert ([0xff] + ShortSuccessor(key[1..]))[1..] == ShortSuccessor(key[1..]);
    }
  }

  // There is a byte between the two where they part.
  predicate PartWide(start: Bytes, limit: Bytes) {
    var n := CommonPrefix(start, limit);
    n < |start| && n < |limit| && limit[n] as int - start[n] as int > 1
  }

  // A separator comes after the start and is as short as any key from the start to the limit, if the two part wide;
  // otherwise nothing is shortened.
  lemma SeparatorIsShortest(start: Bytes, limit: Bytes, key: Bytes)
    requires BytesLess(start, limit)
    ensures var r := ShortestSeparator(start, limit);
            if PartWide(start, limit) then
              BytesLess(start, r) && (!BytesLess(key, start) && BytesLess(key, limit) ==> |r| <= |key|)
            else r == start
  {
    hide CommonPrefix, BytesLess;
    var n := CommonPrefix(start, limit);
    if PartWide(start, limit) {
      var p, a, b := start[..n], start[n..], limit[n..];
      assert start == p + a && limit == p + b && ShortestSeparator(start, limit) == p + [a[0] + 1];
      FirstDifference(p, a, [a[0] + 1]);
      FirstByteDecides(a, [a[0] + 1]);
      if |key| <= n {
        ShorterIsOutside(key, p, a, b);
      }
    }
  }

  lemma FirstByteDecides(a: Bytes, b: Bytes)
    requires a != [] && b != [] && a[0] != b[0]
    ensures BytesLess(a, b) <==> a[0] < b[0]
  {
  }

  // No key of at most the length of a prefix lies between two keys with that prefix that go on.
  lemma {:induction false} ShorterIsOutside(key: Bytes, p: Bytes, a: Bytes, b: Bytes)
    requires |key| <= |p| && a != []
    ensures BytesLess(key, p + a) || !BytesLess(key, p + b)
  {
    if p == [] {
      assert p + a == a;
    } else {
      assert p + a == [p[0]] + (p[1..] + a) && p + b == [p[0]] + (p[1..] + b);
      if key != [] && key[0] == p[0] {
        ShorterIsOutside(key[1..], p[1..], a, b);
        assert key == [key[0]] + key[1..];
        SameFirst(p[0], key[1..], p[1..] + a);
        SameFirst(p[0], key[1..], p[1..] + b);
      }
    }
  }

  // A successor is as short as any key at or after the key, and after it unless the key is all 0xff.
  lemma {:induction false} SuccessorIsShortest(key: Bytes, other: Bytes)
    ensures !BytesLess(other, key) ==> |ShortSuccessor(key)| <= |other|
    ensures if AllHigh(key) then ShortSuccessor(key) == key else BytesLess(key, ShortSuccessor(key))
  {
    hide BytesLess, ShortSuccessor;
    SuccessorIs(key);
    NothingIsFirst(key);
    if key != [] && key[0] == 0xff {
      var rest := key[1..];
      SuccessorIsShortest(rest, if other == [] then [] else other[1..]);
      assert key == [0xff] + rest;
      SameFirst(0xff, rest, ShortSuccessor(rest));
      if other != [] && other[0] == 0xff {
        assert other == [0xff] + other[1..];
        SameFirst(0xff, other[1..], rest);
      } else if other != [] {
        FirstByteDecides(other, key);
      }
    } else if key != [] {
      FirstByteDecides(key, ShortSuccessor(key));
    }
  }

  predicate AllHigh(key: Bytes) {
    forall i | 0 <= i < |key| :: key[i] == 0xff
  }

  lemma SuccessorIs(key: Bytes)
    ensures key == [] ==> ShortSuccessor(key) == []
    ensures key != [] && key[0] != 0xff ==> ShortSuccessor(key) == [key[0] + 1] && !AllHigh(key)
    ensures key != [] && key[0] == 0xff ==>
              ShortSuccessor(key) == [0xff] + ShortSuccessor(key[1..]) && AllHigh(key) == AllHigh(key[1..])
  {
    hide BytesLess;
    if key != [] && key[0] == 0xff && AllHigh(key[1..]) {
      forall i | 0 <= i < |key|
        ensures key[i] == 0xff
      {
        assert i > 0 ==> key[i] == key[1..][i - 1];
      }
    }
  }

  lemma NothingIsFirst(key: Bytes)
    ensures key != [] ==> BytesLess([], key)
  {
  }

  function Bytewise(): Comparator {
    Comparator(BytesLess, ShortestSeparator, ShortSuccessor)
  }

  lemma BytewiseIsLawful()
    ensures Bytewise().Lawful() && Bytewise().Distinguishes()
  {
    hide BytesLess, ShortestSeparator, ShortSuccessor;
    forall a, b, c
      ensures !BytesLess(a, a)
      ensures BytesLess(a, b) && BytesLess(b, c) ==> BytesLess(a, c)
      ensures a == b || BytesLess(a, b) || BytesLess(b, a)
    {
      LessIsOrder(a, b, c);
    }
    forall a, b
      ensures BytesLess(a, b) ==> !BytesLess(ShortestSeparator(a, b), a) && BytesLess(ShortestSeparator(a, b), b)
      ensures !BytesLess(a, b) ==> ShortestSeparator(a, b) == a
    {
      SeparatorSeparates(a, b);
    }
    forall a
      ensures !BytesLess(ShortSuccessor(a), a)
    {
      SuccessorSucceeds(a);
    }
  }

  // ---------------------------------------------------------------------------
  // Internal keys: a user key and eight bytes of sequence number and type
  // ---------------------------------------------------------------------------

  // ExtractUserKey.
  function UserPart(key: Bytes): Bytes {
    if |key| < 8 then [] else key[..|key| - 8]
  }

  function TagPart(key: Bytes): nat {
    if |key| < 8 then 0 else DecodeFixed64(key[|key| - 8..])
  }

  // The largest sequence number with the type used for seeking: the first tag of a user key.
  const FIRST_TAG: nat := 0xFF_FFFF_FFFF_FFFF * 256 + 1

  // InternalKeyComparator::Compare: by user key, then by decreasing tag.
  predicate InternalLess(user: Comparator, a: Bytes, b: Bytes) {
    || user.less(UserPart(a), UserPart(b))
    || (!user.less(UserPart(b), UserPart(a)) && TagPart(a) > TagPart(b))
  }

  function Tagged(userKey: Bytes): Bytes {
    userKey + EncodeFixed64(FIRST_TAG)
  }

  function InternalSeparator(user: Comparator, start: Bytes, limit: Bytes): Bytes {
    var tmp := user.separator(UserPart(start), UserPart(limit));
    if |tmp| < |UserPart(start)| && user.less(UserPart(start), tmp) then Tagged(tmp) else start
  }

  function InternalSuccessor(user: Comparator, key: Bytes): Bytes {
    var tmp := user.successor(UserPart(key));
    if |tmp| < |UserPart(key)| && user.less(UserPart(key), tmp) then Tagged(tmp) else key
  }

  function Internal(user: Comparator): Comparator {
    Comparator((a, b) => InternalLess(user, a, b), (a, b) => InternalSeparator(user, a, b),
               a => InternalSuccessor(user, a))
  }

  lemma TaggedParts(userKey: Bytes)
    ensures UserPart(Tagged(userKey)) == userKey && TagPart(Tagged(userKey)) == FIRST_TAG
  {
    hide EncodeFixed64, DecodeFixed64;
    var key := Tagged(userKey);
    assert key[..|key| - 8] == userKey && key[|key| - 8..] == EncodeFixed64(FIRST_TAG);
    Fixed64RoundTrip(FIRST_TAG);
  }

  // The internal separators keep the promise whenever the user comparator does: the asserts in
  // InternalKeyComparator::FindShortestSeparator hold.
  lemma InternalIsLawful(user: Comparator)
    requires user.Lawful()
    ensures Internal(user).Lawful()
  {
    InternalIsOrdered(user);
    InternalSeparates(user);
  }

  lemma InternalIsOrdered(user: Comparator)
    requires user.Ordered()
    ensures Internal(user).Ordered()
  {
    hide UserPart, TagPart;
  }

  lemma InternalSeparates(user: Comparator)
    requires user.Lawful()
    ensures Internal(user).Separates()
  {
    InternalIsOrdered(user);
    hide UserPart, TagPart, Tagged;
    forall a, b
      ensures InternalLess(user, a, b) ==>
                !InternalLess(user, InternalSeparator(user, a, b), a) && InternalLess(user, InternalSeparator(user, a, b), b)
      ensures !InternalLess(user, a, b) ==> InternalSeparator(user, a, b) == a
    {
      TaggedParts(user.separator(UserPart(a), UserPart(b)));
      assert Internal(user).Ordered();
    }
    forall a
      ensures !InternalLess(user, InternalSuccessor(user, a), a)
    {
      TaggedParts(user.successor(UserPart(a)));
    }
  }

  // A key past start that the separator still covers has a smaller user key than limit.
  lemma NothingBetween(user: Comparator, start: Bytes, limit: Bytes, key: Bytes)
    requires user.Lawful() && InternalLess(user, start, limit) && InternalLess(user, start, key)
    requires !InternalLess(user, InternalSeparator(user, start, limit), key)
    ensures user.less(UserPart(key), UserPart(limit))
  {
    hide UserPart, TagPart, Tagged;
    TaggedParts(user.separator(UserPart(start), UserPart(limit)));
  }

  // Over byte strings, an internal key whose user key can be shortened is; the result sorts before all others with its
  // user key. Otherwise it stays.
  lemma InternalSeparatorIsShort(start: Bytes, limit: Bytes)
    requires BytesLess(UserPart(start), UserPart(limit))
    ensures var a, b, r := UserPart(start), UserPart(limit), InternalSeparator(Bytewise(), start, limit);
            if PartWide(a, b) && CommonPrefix(a, b) + 1 < |a| then
              && UserPart(r) == ShortestSeparator(a, b) && TagPart(r) == FIRST_TAG && |UserPart(r)| < |a|
              && forall key | BytesLess(a, key) && BytesLess(key, b) :: |UserPart(r)| <= |key|
            else r == start
  {
    hide UserPart, TagPart, Tagged, CommonPrefix, BytesLess;
    var a, b := UserPart(start), UserPart(limit);
    TaggedParts(ShortestSeparator(a, b));
    SeparatorIsShortest(a, b, a);
    forall key | BytesLess(a, key) && BytesLess(key, b) && PartWide(a, b)
      ensures |ShortestSeparator(a, b)| <= |key|
    {
      LessIsOrder(a, key, a);
      SeparatorIsShortest(a, b, key);
    }
  }

  lemma InternalSuccessorIsShort(key: Bytes)
    ensures var a, r := UserPart(key), InternalSuccessor(Bytewise(), key);
            if |ShortSuccessor(a)| < |a| then UserPart(r) == ShortSuccessor(a) && TagPart(r) == FIRST_TAG else r == key
  {
    hide UserPart, TagPart, Tagged, BytesLess, ShortSuccessor;
    var a := UserPart(key);
    TaggedParts(ShortSuccessor(a));
    SuccessorIsShortest(a, a);
  }
}
