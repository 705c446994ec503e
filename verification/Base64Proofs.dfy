/** Exactly which texts the base64 reader accepts, and what it returns for them. */
module Base64Proofs {
  import opened Options
  import opened FlatFile
  import opened Base64

  // ------------------------------------------------------------- groups to bytes

  function Byte0(q: seq<Sextet>): Byte requires |q| >= 2 { q[0] as int * 4 + q[1] as int / 16 }
  function Byte1(q: seq<Sextet>): Byte requires |q| >= 3 { q[1] as int % 16 * 16 + q[2] as int / 4 }
  function Byte2(q: seq<Sextet>): Byte requires |q| >= 4 { q[2] as int % 4 * 64 + q[3] as int }

  /** Undoing the encoding four groups at a time; leftover bits must be zero. */
  function Undo(q: seq<Sextet>): Option<Bytes> {
    if |q| == 0 then Some([])
    else if |q| == 1 then (if q[0] == 0 then Some([]) else None)
    else if |q| == 2 then (if q[1] % 16 == 0 then Some([Byte0(q)]) else None)
    else if |q| == 3 then (if q[2] % 4 == 0 then Some([Byte0(q), Byte1(q)]) else None)
    else
      var rest := Undo(q[4..]);
      if rest.None? then None else Some([Byte0(q), Byte1(q), Byte2(q)] + rest.value)
  }

  lemma OrBytesSums(a: nat, b: nat)
    ensures a * 4 < 256 && b < 4 ==> OrBytes(a * 4, b) == a * 4 + b
    ensures a * 16 < 256 && b < 16 ==> OrBytes(a * 16, b) == a * 16 + b
    ensures a * 64 < 256 && b < 64 ==> OrBytes(a * 64, b) == a * 64 + b
  {
    OrSums(a, b);
  }

  lemma Feed2(out: Bytes, a: Sextet, b: Sextet, n: nat)
    requires |out| < n
    ensures FeedAll(Reading(0, out, 0), [a, b], n) == Carry(2, out, a * 4 + b / 16, b % 16 * 16, n)
  {
    OrBytesSums(a, b / 16);
    assert [a, b][1..] == [b] && [b][1..] == [];
    var r := Reading(1, out, a * 4);
    assert FeedAll(r, [b], n) == Feed(r, b, n);
  }

  lemma {:induction false} FeedConcat(r: Reader, p: seq<Sextet>, q: seq<Sextet>, n: nat)
    ensures FeedAll(r, p + q, n) == FeedAll(FeedAll(r, p, n), q, n)
    decreases p
  {
    if p == [] {
      assert p + q == q;
    } else {
      assert (p + q)[1..] == p[1..] + q;
      FeedConcat(Feed(r, p[0], n), p[1..], q, n);
    }
  }

  lemma {:induction false} FeedFailed(q: seq<Sextet>, n: nat)
    ensures FeedAll(Failed, q, n) == Failed
  {
    if q != [] { FeedFailed(q[1..], n); }
  }

  /** The reader after the third group. */
  lemma Feed3(out: Bytes, q: seq<Sextet>, n: nat)
    requires |q| == 3
    ensures FeedAll(Reading(0, out, 0), q, n)
         == if |out| + 2 <= n && (|out| + 2 < n || q[2] % 4 == 0)
            then Reading(3, out + [Byte0(q), Byte1(q)], q[2] as int % 4 * 64) else Failed
  {
    FeedFailed(q[1..], n);
    FeedFailed([q[2]], n);
    if |out| < n {
      Feed2(out, q[0], q[1], n);
      assert q == [q[0], q[1]] + [q[2]];
      FeedConcat(Reading(0, out, 0), [q[0], q[1]], [q[2]], n);
      OrBytesSums(q[1] % 16, q[2] / 4);
      assert out + [Byte0(q)] + [Byte1(q)] == out + [Byte0(q), Byte1(q)];
      assert [q[2]][1..] == [];
    }
  }

  lemma Feed4(out: Bytes, q: seq<Sextet>, n: nat)
    requires |q| == 4
    ensures FeedAll(Reading(0, out, 0), q, n)
         == if |out| + 3 <= n then Reading(0, out + [Byte0(q), Byte1(q), Byte2(q)], 0) else Failed
  {
    Feed3(out, q[..3], n);
    assert q == q[..3] + [q[3]];
    FeedConcat(Reading(0, out, 0), q[..3], [q[3]], n);
    OrBytesSums(q[2] % 4, q[3]);
    assert out + [Byte0(q), Byte1(q)] + [Byte2(q)] == out + [Byte0(q), Byte1(q), Byte2(q)];
    assert [q[3]][1..] == [];
  }

  /** How much room reading q needs beyond what is already out. */
  predicate Fits(out: Bytes, x: Bytes, q: seq<Sextet>, n: nat) {
    |out| + |x| + (if |q| % 4 == 1 then 1 else 0) <= n
  }

  lemma {:induction false} ReadsAsUndo(out: Bytes, q: seq<Sextet>, n: nat)
    requires |out| <= n
    ensures Finish(FeedAll(Reading(0, out, 0), q, n), n)
         == if Undo(q).Some? && Fits(out, Undo(q).value, q, n) then Some(out + Undo(q).value) else None
    decreases |q|
  {
    if |q| == 0 {
      assert out + [] == out;
    } else if |q| == 1 {
      assert q[1..] == [];
      assert out + [] == out;
    } else if |q| == 2 {
      FeedFailed(q[1..], n);
      if |out| < n { Feed2(out, q[0], q[1], n); assert q == [q[0], q[1]]; }
    } else if |q| == 3 {
      Feed3(out, q, n);
    } else {
      if |out| + 3 <= n { ReadsAsUndo(out + [Byte0(q), Byte1(q), Byte2(q)], q[4..], n); }
      ReadsAsUndoMore(out, q, n);
    }
  }

  lemma ReadsAsUndoMore(out: Bytes, q: seq<Sextet>, n: nat)
    requires |out| <= n && |q| >= 4
    requires var out3 := out + [Byte0(q), Byte1(q), Byte2(q)];
             |out| + 3 <= n ==>
               Finish(FeedAll(Reading(0, out3, 0), q[4..], n), n)
               == if Undo(q[4..]).Some? && Fits(out3, Undo(q[4..]).value, q[4..], n)
                  then Some(out3 + Undo(q[4..]).value) else None
    ensures Finish(FeedAll(Reading(0, out, 0), q, n), n)
         == if Undo(q).Some? && Fits(out, Undo(q).value, q, n) then Some(out + Undo(q).value) else None
  {
    Feed4(out, q[..4], n);
    assert q == q[..4] + q[4..];
    FeedConcat(Reading(0, out, 0), q[..4], q[4..], n);
    FeedFailed(q[4..], n);
    StrayShift(q);
    if Undo(q[4..]).Some? {
      var three := [Byte0(q), Byte1(q), Byte2(q)];
      assert out + three + Undo(q[4..]).value == out + (three + Undo(q[4..]).value);
    }
  }

  /** Splitting three bytes into groups and joining them again gives the bytes back ... */
  lemma BytesBack(x: int, y: int, z: int)
    requires 0 <= x < 256 && 0 <= y < 256 && 0 <= z < 256
    ensures x / 4 * 4 + (x % 4 * 16 + y / 16) / 16 == x
    ensures (x % 4 * 16 + y / 16) % 16 * 16 + (y % 16 * 4 + z / 64) / 4 == y
    ensures (y % 16 * 4 + z / 64) % 4 * 64 + z % 64 == z
  {
  }

  /** ... and the other way round. */
  lemma GroupsBack(a: int, b: int, c: int, d: int)
    requires 0 <= a < 64 && 0 <= b < 64 && 0 <= c < 64 && 0 <= d < 64
    ensures var x, y, z := a * 4 + b / 16, b % 16 * 16 + c / 4, c % 4 * 64 + d;
            x / 4 == a && x % 4 * 16 + y / 16 == b && y % 16 * 4 + z / 64 == c && z % 64 == d
  {
  }

  lemma UndoEncodeOne(x: Bytes)
    requires |x| == 1
    ensures Undo(Encode(x)) == Some(x) && |Encode(x)| == 2
  {
    BytesBack(x[0], 0, 0);
    var q := Encode(x);
    assert q[1] == x[0] % 4 * 16 && q[1] % 16 == 0;
    assert Byte0(q) == x[0];
    assert x == [x[0]];
  }

  lemma UndoEncodeTwo(x: Bytes)
    requires |x| == 2
    ensures Undo(Encode(x)) == Some(x) && |Encode(x)| == 3
  {
    BytesBack(x[0], x[1], 0);
    var q := Encode(x);
    assert q[2] == x[1] % 16 * 4 && q[2] % 4 == 0;
    assert Byte0(q) == x[0] && Byte1(q) == x[1];
    assert x == [x[0], x[1]];
  }

  lemma {:induction false} UndoEncode(x: Bytes)
    ensures Undo(Encode(x)) == Some(x)
    ensures |Encode(x)| % 4 != 1
  {
    if |x| == 1 {
      UndoEncodeOne(x);
    } else if |x| == 2 {
      UndoEncodeTwo(x);
    } else if |x| >= 3 {
      UndoEncode(x[3..]);
      UndoEncodeMore(x);
    }
  }

  lemma UndoEncodeMore(x: Bytes)
    requires |x| >= 3 && Undo(Encode(x[3..])) == Some(x[3..])
    ensures Undo(Encode(x)) == Some(x) && |Encode(x)| == 4 + |Encode(x[3..])|
  {
    var q := Encode(x);
    BytesBack(x[0], x[1], x[2]);
    assert q[4..] == Encode(x[3..]);
    assert Byte0(q) == x[0] && Byte1(q) == x[1] && Byte2(q) == x[2];
    assert x == [x[0], x[1], x[2]] + x[3..];
  }

  /** A group that stands alone at the end. */
  function Stray(q: seq<Sextet>): seq<Sextet> { if |q| % 4 == 1 then [0] else [] }

  lemma StrayShift(q: seq<Sextet>)
    requires |q| >= 4
    ensures Stray(q[4..]) == Stray(q) && |q[4..]| % 4 == |q| % 4
  {
  }

  /** Only encodings are undone, or an encoding of whole triples with one zero group behind it. */
  lemma {:induction false} EncodeUndo(q: seq<Sextet>)
    requires Undo(q).Some?
    ensures q == Encode(Undo(q).value) + Stray(q)
    ensures |q| % 4 == 1 ==> |Undo(q).value| % 3 == 0
    decreases |q|
  {
    if |q| < 4 {
      EncodeUndoShort(q);
    } else {
      EncodeUndo(q[4..]);
      EncodeFour(q);
      StrayShift(q);
      RejoinFour(q, Encode(Undo(q[4..]).value), Stray(q));
    }
  }

  lemma RejoinFour(q: seq<Sextet>, e: seq<Sextet>, tail: seq<Sextet>)
    requires |q| >= 4 && q[4..] == e + tail
    ensures q == (q[..4] + e) + tail
  {
    assert q == q[..4] + q[4..];
  }

  lemma EncodeUndoShort(q: seq<Sextet>)
    requires |q| < 4 && Undo(q).Some?
    ensures q == Encode(Undo(q).value) + Stray(q)
    ensures |q| % 4 == 1 ==> |Undo(q).value| % 3 == 0
  {
    if |q| == 2 {
      EncodeUndoTwo(q);
    } else if |q| == 3 {
      EncodeUndoThree(q);
    }
  }

  lemma EncodeUndoTwo(q: seq<Sextet>)
    requires |q| == 2 && q[1] % 16 == 0
    ensures Encode([Byte0(q)]) == q
  {
    GroupsBack(q[0], q[1], 0, 0);
    var e := Encode([Byte0(q)]);
    assert e[0] == q[0] && e[1] == q[1];
  }

  lemma EncodeUndoThree(q: seq<Sextet>)
    requires |q| == 3 && q[2] % 4 == 0
    ensures Encode([Byte0(q), Byte1(q)]) == q
  {
    GroupsBack(q[0], q[1], q[2], 0);
    var e := Encode([Byte0(q), Byte1(q)]);
    assert e[0] == q[0] && e[1] == q[1] && e[2] == q[2];
  }

  lemma EncodeFour(q: seq<Sextet>)
    requires |q| >= 4 && Undo(q).Some?
    ensures Encode(Undo(q).value) == q[..4] + Encode(Undo(q[4..]).value)
    ensures |Undo(q).value| == 3 + |Undo(q[4..]).value|
  {
    var x := Undo(q).value;
    GroupsBack(q[0], q[1], q[2], q[3]);
    assert x[3..] == Undo(q[4..]).value;
    assert q[..4] == [q[0], q[1], q[2], q[3]];
  }

  // -------------------------------------------------------------- text to groups

  /** The letters of a text: no spaces, '+' and '/' folded, nothing from the first '=' on. */
  function Letters(s: Bytes): Bytes {
    if s == [] || s[0] == PAD then []
    else if IsSpace(s[0]) then Letters(s[1..])
    else [Fold(s[0])] + Letters(s[1..])
  }

  /** Behind the first '=' there is only padding and space. */
  predicate TailOk(s: Bytes) {
    s == [] || (if s[0] == PAD then IsTail(s[1..]) else TailOk(s[1..]))
  }

  lemma SpellCons(v: Sextet, q: seq<Sextet>)
    ensures Spell([v] + q) == [Letter(v)] + Spell(q)
  {
  }

  lemma {:induction false} GroupsGiveLetters(s: Bytes)
    requires Groups(s).Some?
    ensures TailOk(s) && Letters(s) == Spell(Groups(s).value)
  {
    if s == [] || s[0] == PAD {
    } else if IsSpace(s[0]) {
      GroupsGiveLetters(s[1..]);
    } else {
      GroupsGiveLetters(s[1..]);
      LetterOfValue(Fold(s[0]));
      SpellCons(Value(Fold(s[0])).value, Groups(s[1..]).value);
    }
  }

  lemma {:induction false} LettersGiveGroups(s: Bytes, q: seq<Sextet>)
    requires TailOk(s) && Letters(s) == Spell(q)
    ensures Groups(s) == Some(q)
    decreases s
  {
    if s == [] || s[0] == PAD {
    } else if IsSpace(s[0]) {
      LettersGiveGroups(s[1..], q);
    } else {
      assert Letters(s)[0] == Letter(q[0]) && Letters(s)[1..] == Letters(s[1..]);
      ValueOfLetter(q[0]);
      assert Spell(q)[1..] == Spell(q[1..]);
      LettersGiveGroups(s[1..], q[1..]);
      assert [q[0]] + q[1..] == q;
    }
  }

  lemma {:induction false} LettersOfText(q: seq<Sextet>)
    ensures Letters(Spell(q)) == Spell(q) && TailOk(Spell(q))
  {
    if q != [] {
      ValueOfLetter(q[0]);
      assert Spell(q)[1..] == Spell(q[1..]);
      LettersOfText(q[1..]);
      assert Spell(q) == [Letter(q[0])] + Spell(q[1..]);
    }
  }

  // -------------------------------------------------------------------- theorems

  /** Reading undoes writing, whenever the target holds the bytes, whatever spaces stand between the
      letters, whatever padding follows, and whichever of the two alphabets was used; and it fails
      when the target is too small. */
  lemma RoundTrip(x: Bytes, s: Bytes, n: nat)
    requires Letters(s) == Text(x) && TailOk(s)
    ensures Pton(s, n) == if |x| <= n then Some(x) else None
  {
    LettersGiveGroups(s, Encode(x));
    UndoEncode(x);
    ReadsAsUndo([], Encode(x), n);
    assert [] + x == x;
  }

  lemma TextRoundTrip(x: Bytes, n: nat)
    ensures Pton(Text(x), n) == if |x| <= n then Some(x) else None
  {
    LettersOfText(Encode(x));
    RoundTrip(x, Text(x), n);
  }

  /** What a text must be for the reader to return x: a decorated encoding of x that fits, or, when
      room remains, an encoding of whole triples with a stray 'A' behind it. */
  predicate Spells(s: Bytes, n: nat, x: Bytes) {
    TailOk(s) &&
    ((Letters(s) == Text(x) && |x| <= n) ||
     (Letters(s) == Text(x) + [65] && |x| % 3 == 0 && |x| < n))
  }

  lemma ReadSpells(s: Bytes, n: nat)
    requires Pton(s, n).Some?
    ensures Spells(s, n, Pton(s, n).value)
  {
    var q := Groups(s).value;
    GroupsGiveLetters(s);
    ReadsAsUndo([], q, n);
    EncodeUndo(q);
    var x := Undo(q).value;
    assert [] + x == x;
    if |q| % 4 == 1 {
      StrayText(x);
    } else {
      assert Encode(x) + [] == Encode(x);
    }
  }

  lemma StrayText(x: Bytes)
    ensures Spell(Encode(x) + [0]) == Text(x) + [65]
  {
  }

  lemma SpellsRead(s: Bytes, n: nat, x: Bytes)
    requires Spells(s, n, x)
    ensures Pton(s, n) == Some(x)
  {
    if Letters(s) == Text(x) && |x| <= n {
      RoundTrip(x, s, n);
    } else {
      StrayGroup(x, n);
      StrayText(x);
      LettersGiveGroups(s, Encode(x) + [0]);
    }
  }

  /** The reader returns x for exactly these texts. */
  lemma PtonExactly(s: Bytes, n: nat, x: Bytes)
    ensures Pton(s, n) == Some(x) <==> Spells(s, n, x)
  {
    if Pton(s, n) == Some(x) { ReadSpells(s, n); }
    if Spells(s, n, x) { SpellsRead(s, n, x); }
  }

  /** The text "A" reads as no bytes, which are written as no text. */
  lemma StrayExample()
    ensures Pton([65], 1) == Some([]) && Text([]) == []
  {
    var s: Bytes := [65];
    assert s[1..] == [];
    assert Letters(s) == [65] && TailOk(s) by { assert Letters(s[1..]) == [] && TailOk(s[1..]); }
    assert Text([]) + [65] == [65];
    PtonExactly(s, 1, []);
  }

  lemma {:induction false} StrayUndo(q: seq<Sextet>)
    requires |q| % 4 == 0
    ensures Undo(q + [0]) == Undo(q)
    decreases |q|
  {
    if q == [] {
      assert q + [0] == [0];
    } else {
      StrayUndo(q[4..]);
      assert (q + [0])[4..] == q[4..] + [0];
    }
  }

  lemma {:induction false} WholeGroups(x: Bytes)
    requires |x| % 3 == 0
    ensures |Encode(x)| % 4 == 0
  {
    if x != [] { WholeGroups(x[3..]); }
  }

  lemma StrayRead(q: seq<Sextet>, x: Bytes, n: nat)
    requires |q| % 4 == 0 && Undo(q) == Some(x)
    ensures Decode(q + [0], n) == if |x| < n then Some(x) else None
  {
    StrayUndo(q);
    ReadsAsUndo([], q + [0], n);
    assert [] + x == x;
  }

  lemma StrayGroup(x: Bytes, n: nat)
    requires |x| % 3 == 0
    ensures Decode(Encode(x) + [0], n) == if |x| < n then Some(x) else None
  {
    UndoEncode(x);
    WholeGroups(x);
    StrayRead(Encode(x), x, n);
  }

  /** The length of the text, and that it fits a target of the needed size. */
  lemma {:induction false} TextLength(x: Bytes)
    ensures |Text(x)| == |x| / 3 * 4 + (if |x| % 3 == 0 then 0 else |x| % 3 + 1)
    ensures |Text(x)| < Need(|x|)
  {
    if |x| >= 3 {
      TextLength(x[3..]);
    }
  }
}
