/** The identity of a note-tag association object (entity/NoteTag.java):
    its `equals` and `hashCode` as written, what they get right, where they
    break the contracts of `Object`, and the natural-key identity that the
    rest of the model gives to a stored link (`Entities.Link`). */
module NoteTagIdentity {
  import opened Common
  import opened Entities

  /** A NoteTag object as its `equals` and `hashCode` see it: the surrogate
      id (null until the row is inserted) and the ids of the note and the
      tag it refers to (null when the reference or its id is null). */
  datatype NoteTagRef = NoteTagRef(id: Option<nat>, noteId: Option<NoteId>, tagId: Option<TagId>)

  /** `NoteTag.equals`: the surrogate ids when both objects have one,
      otherwise the pair of referenced ids (`Objects.equals` treats two
      nulls as equal). The `this == o` shortcut is subsumed: equal values
      compare equal on both paths. */
  predicate Equals(a: NoteTagRef, b: NoteTagRef) {
    if a.id.Some? && b.id.Some? then a.id == b.id
    else a.noteId == b.noteId && a.tagId == b.tagId
  }

  // ---------------------------------------------------------------------
  // Java's hash functions, on the 32 bits of an int
  // ---------------------------------------------------------------------

  const TwoTo32: nat := 0x1_0000_0000

  /** The bitwise exclusive or of two naturals. */
  function Xor(a: nat, b: nat): nat
    decreases a + b
  {
    if a == 0 && b == 0 then 0 else 2 * Xor(a / 2, b / 2) + (a % 2 + b % 2) % 2
  }

  lemma {:induction false} XorZero(a: nat)
    ensures Xor(a, 0) == a
    decreases a
  {
    if a != 0 {
      XorZero(a / 2);
    }
  }

  /** `Long.hashCode(v)`: the low 32 bits of `v ^ (v >>> 32)`, that is the
      exclusive or of the low and the high half of the 64-bit value (ids
      are never negative). */
  function LongHash(v: nat): (h: nat)
    ensures h < TwoTo32
  {
    var w := v % 0x1_0000_0000_0000_0000;
    Xor(w % TwoTo32, w / TwoTo32 % TwoTo32) % TwoTo32
  }

  /** A Long below 2^32 is its own hash. */
  lemma LongHashSmall(v: nat)
    requires v < TwoTo32
    ensures LongHash(v) == v
  {
    var w := v % 0x1_0000_0000_0000_0000;
    assert w == v;
    assert w % TwoTo32 == v && w / TwoTo32 % TwoTo32 == 0;
    XorZero(v);
  }

  /** The hash of a Long that may be null (`Objects.hashCode`). */
  function NullableHash(v: Option<nat>): (h: nat)
    ensures h < TwoTo32
  {
    if v.None? then 0 else LongHash(v.value)
  }

  /** `Objects.hash(x, y)`: `31 * (31 * 1 + hash(x)) + hash(y)` with int
      wrap-around. */
  function PairHash(x: Option<nat>, y: Option<nat>): (h: nat)
    ensures h < TwoTo32
  {
    (31 * (31 + NullableHash(x)) + NullableHash(y)) % TwoTo32
  }

  /** `NoteTag.hashCode`. */
  function HashCode(a: NoteTagRef): (h: nat)
    ensures h < TwoTo32
  {
    if a.id.Some? then LongHash(a.id.value) else PairHash(a.noteId, a.tagId)
  }

  // ---------------------------------------------------------------------
  // What the definitions get right
  // ---------------------------------------------------------------------

  lemma EqualsReflexive(a: NoteTagRef)
    ensures Equals(a, a)
  {
  }

  lemma EqualsSymmetric(a: NoteTagRef, b: NoteTagRef)
    ensures Equals(a, b) <==> Equals(b, a)
  {
  }

  /** Two saved links are equal exactly when their surrogate ids are; as
      soon as one of them is unsaved, exactly when they refer to the same
      note and the same tag. */
  lemma EqualsCases(a: NoteTagRef, b: NoteTagRef)
    ensures a.id.Some? && b.id.Some? ==> (Equals(a, b) <==> a.id == b.id)
    ensures a.id.None? || b.id.None? ==> (Equals(a, b) <==> a.noteId == b.noteId && a.tagId == b.tagId)
  {
  }

  /** Equal links that are both saved, or both unsaved, hash alike. */
  lemma EqualHashWhenSameState(a: NoteTagRef, b: NoteTagRef)
    requires Equals(a, b) && a.id.Some? == b.id.Some?
    ensures HashCode(a) == HashCode(b)
  {
  }

  // ---------------------------------------------------------------------
  // Where the definitions break the contracts of Object
  // ---------------------------------------------------------------------

  /** A saved link and a fresh link for the same note and tag are equal
      but hash differently, so a HashSet holding the saved one accepts the
      fresh one as a second element. */
  lemma HashContractBroken()
    ensures exists a, b :: Equals(a, b) && HashCode(a) != HashCode(b)
  {
    var a := NoteTagRef(Some(1), Some(1), Some(1));
    var b := NoteTagRef(None, Some(1), Some(1));
    LongHashSmall(1);
    assert HashCode(b) == 993;
    assert Equals(a, b) && HashCode(a) != HashCode(b);
  }

  /** A fresh link equals two saved links with different ids, which are
      not equal to each other. */
  lemma EqualsNotTransitive()
    ensures exists a, b, c :: Equals(a, b) && Equals(b, c) && !Equals(a, c)
  {
    var a := NoteTagRef(Some(1), Some(1), Some(1));
    var b := NoteTagRef(None, Some(1), Some(1));
    var c := NoteTagRef(Some(2), Some(1), Some(1));
    assert Equals(a, b) && Equals(b, c) && !Equals(a, c);
  }

  // ---------------------------------------------------------------------
  // The natural key
  // ---------------------------------------------------------------------

  /** Identity by the referenced pair alone, which the unique constraint on
      (note_id, tag_id) makes a key. */
  predicate KeyEquals(a: NoteTagRef, b: NoteTagRef) {
    a.noteId == b.noteId && a.tagId == b.tagId
  }

  function KeyHash(a: NoteTagRef): (h: nat)
    ensures h < TwoTo32
  {
    PairHash(a.noteId, a.tagId)
  }

  /** The natural key is an equivalence with a hash that agrees with it. */
  lemma KeyIdentityLawful(a: NoteTagRef, b: NoteTagRef, c: NoteTagRef)
    ensures KeyEquals(a, a)
    ensures KeyEquals(a, b) ==> KeyEquals(b, a)
    ensures KeyEquals(a, b) && KeyEquals(b, c) ==> KeyEquals(a, c)
    ensures KeyEquals(a, b) ==> KeyHash(a) == KeyHash(b)
  {
  }

  /** The `note_tags` table: surrogate id to (note, tag). */
  type LinkRows = map<nat, Link>

  /** The `ux_note_tags_note_tag` constraint: a pair occurs at most once. */
  ghost predicate PairsUnique(rows: LinkRows) {
    forall i, j {:trigger rows[i], rows[j]} :: i in rows && j in rows && rows[i] == rows[j] ==> i == j
  }

  /** The object a stored row loads as. */
  function Loaded(rows: LinkRows, i: nat): NoteTagRef
    requires i in rows
  {
    NoteTagRef(Some(i), Some(rows[i].note), Some(rows[i].tag))
  }

  /** Among stored rows the written `equals` and the natural key agree,
      which is why the model identifies a stored link with its pair. */
  lemma StoredLinksAgree(rows: LinkRows, i: nat, j: nat)
    requires PairsUnique(rows) && i in rows && j in rows
    ensures Equals(Loaded(rows, i), Loaded(rows, j)) <==> KeyEquals(Loaded(rows, i), Loaded(rows, j))
  {
    if KeyEquals(Loaded(rows, i), Loaded(rows, j)) {
      assert rows[i] == rows[j];
    }
  }
}
