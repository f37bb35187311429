/**
 The bit set in which pb_decode_noinit tracks required fields: two 32-bit words, indexed by a field's rank
 among the required fields.
 */
module PbRequired {
  import opened PbMessage
  import opened PbFieldIter
  import opened PbRoundTrip

  // A 32-bit word, lowest bit first.
  type Bits = seq<bool>

  ghost predicate ValidWords(words: seq<Bits>) {
    |words| == 2 && |words[0]| == 32 && |words[1]| == 32
  }

  ghost predicate Bit(words: seq<Bits>, j: nat)
    requires ValidWords(words) && j < MAX_REQUIRED_FIELDS
  {
    words[j / 32][j % 32]
  }

  // Bits are set only for required fields that exist, and agree with the fields seen.
  ghost predicate Agrees(d: Descriptor, words: seq<Bits>, seen: set<nat>) {
    && ValidWords(words)
    && (forall j :: RequiredBefore(d, |d.fields|) <= j < MAX_REQUIRED_FIELDS ==> !Bit(words, j))
    && (forall i :: 0 <= i < |d.fields| && d.fields[i].rule.Required? && RequiredBefore(d, i) < MAX_REQUIRED_FIELDS ==>
          (i in seen <==> Bit(words, RequiredBefore(d, i))))
  }

  function Word(k: nat): Bits {
    seq(32, j => j < k)
  }

  method NoneSeen(ghost d: Descriptor) returns (words: seq<Bits>)
    ensures Agrees(d, words, {})
  {
    words := [Word(0), Word(0)];
  }

  method MarkSeen(words: seq<Bits>, index: nat, ghost d: Descriptor, ghost i: nat, ghost seen: set<nat>)
    returns (r: seq<Bits>)
    requires Agrees(d, words, seen) && i < |d.fields| && d.fields[i].rule.Required? && index == RequiredBefore(d, i)
    ensures Agrees(d, r, seen + {i})
  {
    hide Bit, RequiredBefore;
    r := words;
    if index < MAX_REQUIRED_FIELDS {
      BitSet(words, index);
      r := words[index / 32 := words[index / 32][index % 32 := true]];
      RequiredBeforeGrows(d, i, |d.fields|);
      forall k | 0 <= k < |d.fields| && d.fields[k].rule.Required? && k != i
        ensures RequiredBefore(d, k) != index
      {
        if k < i {
          RequiredBeforeGrows(d, k, i);
        } else {
          RequiredBeforeGrows(d, i, k);
        }
      }
    }
  }

  lemma {:induction false} RankTaken(d: Descriptor, rank: nat, n: nat) returns (i: nat)
    requires n <= |d.fields| && rank < RequiredBefore(d, n)
    ensures i < n && d.fields[i].rule.Required? && RequiredBefore(d, i) == rank
  {
    if rank < RequiredBefore(d, n - 1) {
      i := RankTaken(d, rank, n - 1);
    } else {
      i := n - 1;
    }
  }

  // An unset bit is a missing field.
  lemma {:induction false} Missing(d: Descriptor, words: seq<Bits>, seen: set<nat>, j: nat)
    requires Agrees(d, words, seen) && j < RequiredBefore(d, |d.fields|) && j < MAX_REQUIRED_FIELDS && !Bit(words, j)
    ensures !RequiredSeen(d, seen)
  {
    var i := RankTaken(d, j, |d.fields|);
  }

  // A word that differs from k set bits has one of them unset.
  lemma UnsetBit(words: seq<Bits>, w: nat, k: nat) returns (j: nat)
    requires ValidWords(words) && w < 2 && k <= 32 && words[w] != Word(k)
    requires forall b :: 32 * w + k <= b < 32 * w + 32 ==> !Bit(words, b)
    ensures 32 * w <= j < 32 * w + k && !Bit(words, j)
  {
    forall b | k <= b < 32 ensures !words[w][b] {
      assert !Bit(words, 32 * w + b);
    }
    WordIs(words[w], k);
    var b: nat :| b < k && !words[w][b];
    j := 32 * w + b;
  }

  lemma WordIs(bits: Bits, k: nat)
    requires |bits| == 32 && k <= 32 && forall b :: k <= b < 32 ==> !bits[b]
    ensures bits == Word(k) || exists b: nat :: b < k && !bits[b]
  {
    if forall b :: 0 <= b < k ==> bits[b] {
      assert bits == Word(k);
    }
  }

  lemma BitSet(words: seq<Bits>, index: nat)
    requires ValidWords(words) && index < MAX_REQUIRED_FIELDS
    ensures index / 32 < 2 && index % 32 < |words[index / 32]|
    ensures var r := words[index / 32 := words[index / 32][index % 32 := true]];
            && ValidWords(r)
            && forall j :: 0 <= j < MAX_REQUIRED_FIELDS ==> (Bit(r, j) <==> j == index || Bit(words, j))
  {
  }

  lemma WordBits(words: seq<Bits>, w: nat, k: nat)
    requires ValidWords(words) && w < 2 && k <= 32 && words[w] == Word(k)
    ensures forall j :: 32 * w <= j < 32 * w + k ==> Bit(words, j)
  {
  }

  // The final test of pb_decode_noinit: whole words first, then the remaining bits.
  method AllSeen(words: seq<Bits>, required: nat, ghost d: Descriptor, ghost seen: set<nat>) returns (ok: bool)
    requires Agrees(d, words, seen) && required == RequiredBefore(d, |d.fields|)
    ensures ok == RequiredSeen(d, seen)
  {
    hide Bit, RequiredBefore, Word;
    var count := if required > MAX_REQUIRED_FIELDS then MAX_REQUIRED_FIELDS else required;
    if count > 0 {
      var i := 0;
      while i < count / 32
        invariant i <= count / 32
        invariant forall j :: 0 <= j < 32 * i ==> Bit(words, j)
      {
        if words[i] != Word(32) {
          ghost var j := UnsetBit(words, i, 32);
          Missing(d, words, seen, j);
          return false;
        }
        WordBits(words, i, 32);
        i := i + 1;
      }
      if count % 32 != 0 {
        if words[count / 32] != Word(count % 32) {
          forall j | count <= j < 32 * (count / 32) + 32 ensures !Bit(words, j) {
          }
          ghost var j := UnsetBit(words, count / 32, count % 32);
          Missing(d, words, seen, j);
          return false;
        }
        WordBits(words, count / 32, count % 32);
      }
    }
    forall i | 0 <= i < |d.fields| && d.fields[i].rule.Required? && RequiredBefore(d, i) < MAX_REQUIRED_FIELDS
      ensures i in seen
    {
      RequiredBeforeGrows(d, i, |d.fields|);
    }
    return true;
  }
}
