/** A key-value storage holding the blocks of many files, and what listing it reveals of one. */
module KeyedObjects {
  import opened Options
  import opened FlatFile
  import opened BlockStore
  import opened KeyScheme

  type Objects = map<string, Bytes>

  /** The key of a block, from the file's adjusted prefix. */
  function KeyOf(adj: string, id: nat): string { adj + Suffix(id) }

  /** A file's blocks, gathered from the objects under its prefix. */
  ghost function BlocksOf(objects: Objects, adj: string): Blocks {
    map id: nat | id <= MAX_OBJECT_ID && KeyOf(adj, id) in objects :: objects[KeyOf(adj, id)]
  }

  /** b is exactly what the objects under this prefix hold. */
  ghost predicate Represents(objects: Objects, adj: string, b: Blocks) {
    && (forall id :: id in b ==> id <= MAX_OBJECT_ID)
    && forall id: nat :: id <= MAX_OBJECT_ID ==>
         if KeyOf(adj, id) in objects then id in b && b[id] == objects[KeyOf(adj, id)] else id !in b
  }

  lemma RepresentsIffBlocksOf(objects: Objects, adj: string, b: Blocks)
    ensures Represents(objects, adj, b) <==> b == BlocksOf(objects, adj)
  {
  }

  /** Every object is some file's block: its key ends in a slash and six digits. */
  predicate WellKeyed(objects: Objects) {
    forall k :: k in objects ==> IsKey(k)
  }

  predicate IsKey(k: string) {
    |k| >= 7 && k[|k| - 7] == '/' && AllDigits(k[|k| - 6..])
  }

  /** A file's adjusted prefix. */
  predicate IsPrefix(adj: string) { adj != [] && adj[|adj| - 1] == '/' }

  /** What listing with this prefix and the slash as delimiter returns. */
  predicate Lists(adj: string, k: string) {
    adj <= k && forall i :: |adj| <= i < |k| ==> k[i] != '/'
  }

  predicate SameAt(before: Objects, after: Objects, k: string) {
    (k in before <==> k in after) && (k in before ==> before[k] == after[k])
  }

  /** Only keys that listing this prefix returns may have changed. */
  ghost predicate OthersKept(before: Objects, after: Objects, adj: string) {
    forall k :: !Lists(adj, k) ==> SameAt(before, after, k)
  }

  // ------------------------------------------------------------------- key lemmas

  lemma SuffixShape(id: nat)
    requires id <= MAX_OBJECT_ID
    ensures |Suffix(id)| == 6 && AllDigits(Suffix(id))
  {
    PaddedDigits(Mirror(id));
  }

  lemma KeyOfInjective(a: string, i: nat, b: string, j: nat)
    requires i <= MAX_OBJECT_ID && j <= MAX_OBJECT_ID && KeyOf(a, i) == KeyOf(b, j)
    ensures a == b && i == j
  {
    SuffixShape(i);
    SuffixShape(j);
    var k := KeyOf(a, i);
    assert a == k[..|k| - 6] == b;
    assert Suffix(i) == k[|k| - 6..] == Suffix(j);
    PaddedDigits(Mirror(i));
    PaddedDigits(Mirror(j));
  }

  /** A key names the block it was made for. */
  lemma KeyParts(k: string) returns (adj: string, id: nat)
    requires IsKey(k)
    ensures IsPrefix(adj) && id <= MAX_OBJECT_ID && k == KeyOf(adj, id) && adj == k[..|k| - 6]
  {
    var digits := k[|k| - 6..];
    DigitsBound(digits);
    assert Ten(6) == 10 * (10 * (10 * (10 * (10 * (10 * Ten(0))))));
    adj, id := k[..|k| - 6], MAX_OBJECT_ID - ParseDecimal(digits);
    PaddedDigits(Mirror(id));
    LexIsNumeric(digits, Suffix(id));
  }

  lemma KeyIsListed(adj: string, id: nat)
    ensures Lists(adj, KeyOf(adj, id))
  {
    PaddedDigits(Mirror(id));
  }

  lemma KeyShape(adj: string, id: nat)
    requires id <= MAX_OBJECT_ID && IsPrefix(adj)
    ensures IsKey(KeyOf(adj, id)) && Lists(adj, KeyOf(adj, id))
  {
    SuffixShape(id);
    var k := KeyOf(adj, id);
    assert k[|k| - 6..] == Suffix(id);
  }

  /** Listing a prefix never returns a key of another file. */
  lemma ListsOwn(adj: string, q: string, id: nat)
    requires IsPrefix(adj) && IsPrefix(q) && id <= MAX_OBJECT_ID && Lists(adj, KeyOf(q, id))
    ensures q == adj
  {
    var k := KeyOf(q, id);
    SuffixShape(id);
    assert k[|q| - 1] == '/' && k[|adj| - 1] == '/';
    assert forall j :: |q| <= j < |k| ==> k[j] == Suffix(id)[j - |q|];
    assert |q| == |adj|;
    assert q == k[..|q|] == adj;
  }

  /** Listing a prefix yields exactly the file's own blocks, not those of files below it. */
  lemma ListedIffBlock(objects: Objects, adj: string, k: string)
    requires WellKeyed(objects) && k in objects && IsPrefix(adj)
    ensures Lists(adj, k) <==> exists id: nat :: id <= MAX_OBJECT_ID && k == KeyOf(adj, id)
  {
    if Lists(adj, k) {
      var a, i := KeyParts(k);
      ListsOwn(adj, a, i);
      assert k == KeyOf(adj, i);
    }
    forall id: nat | id <= MAX_OBJECT_ID && k == KeyOf(adj, id) ensures Lists(adj, k) {
      KeyShape(adj, id);
    }
  }

  /** Files under other prefixes keep all their blocks. */
  lemma OtherFilesKept(before: Objects, after: Objects, adj: string, q: string)
    requires OthersKept(before, after, adj) && IsPrefix(adj) && IsPrefix(q) && q != adj
    ensures BlocksOf(after, q) == BlocksOf(before, q)
  {
    forall id: nat | id <= MAX_OBJECT_ID ensures SameAt(before, after, KeyOf(q, id)) {
      if Lists(adj, KeyOf(q, id)) { ListsOwn(adj, q, id); }
    }
  }

  /** Every other path's file keeps all its blocks. */
  ghost predicate PathsKept(before: Objects, after: Objects, p: string) {
    forall q :: AdjustPrefix(q).Some? && Trimmed(q) != Trimmed(p) ==>
      BlocksOf(after, AdjustPrefix(q).value) == BlocksOf(before, AdjustPrefix(q).value)
  }

  lemma AllPathsKept(before: Objects, after: Objects, p: string)
    requires AdjustPrefix(p).Some? && OthersKept(before, after, AdjustPrefix(p).value)
    ensures PathsKept(before, after, p)
  {
    forall q | AdjustPrefix(q).Some? && Trimmed(q) != Trimmed(p)
      ensures BlocksOf(after, AdjustPrefix(q).value) == BlocksOf(before, AdjustPrefix(q).value)
    {
      OtherPathsKept(before, after, p, q);
    }
  }

  /** A change to the file of one path is none to that of another that differs behind the leading slashes. */
  lemma OtherPathsKept(before: Objects, after: Objects, p: string, q: string)
    requires AdjustPrefix(p).Some? && AdjustPrefix(q).Some? && Trimmed(p) != Trimmed(q)
    requires OthersKept(before, after, AdjustPrefix(p).value)
    ensures BlocksOf(after, AdjustPrefix(q).value) == BlocksOf(before, AdjustPrefix(q).value)
  {
    SameFileExactly(p, q);
    OtherFilesKept(before, after, AdjustPrefix(p).value, AdjustPrefix(q).value);
  }

  lemma PutObject(objects: Objects, adj: string, id: nat, data: Bytes)
    requires id <= MAX_OBJECT_ID && IsPrefix(adj)
    ensures BlocksOf(objects[KeyOf(adj, id) := data], adj) == BlocksOf(objects, adj)[id := data]
    ensures OthersKept(objects, objects[KeyOf(adj, id) := data], adj)
  {
    KeyShape(adj, id);
    forall j: nat | j <= MAX_OBJECT_ID && j != id ensures KeyOf(adj, j) != KeyOf(adj, id) {
      if KeyOf(adj, j) == KeyOf(adj, id) { KeyOfInjective(adj, j, adj, id); }
    }
  }

  lemma PutWellKeyed(objects: Objects, adj: string, id: nat, data: Bytes)
    requires WellKeyed(objects) && id <= MAX_OBJECT_ID && IsPrefix(adj)
    ensures WellKeyed(objects[KeyOf(adj, id) := data])
  {
    KeyShape(adj, id);
  }

  ghost predicate FileOk(objects: Objects, adj: string, bs: nat) {
    WellKeyed(objects) && IsPrefix(adj) && ValidBlocks(BlocksOf(objects, adj), bs)
  }

  ghost function FileAt(objects: Objects, adj: string, bs: nat): Bytes
    requires bs > 0
  {
    View(BlocksOf(objects, adj), bs)
  }

  // ---------------------------------------------------------------- least of keys

  lemma {:induction false} LexTotal(a: string, b: string)
    ensures LexLess(a, b) || a == b || LexLess(b, a)
  {
    if a != [] && b != [] {
      LexTotal(a[1..], b[1..]);
      assert a == [a[0]] + a[1..] && b == [b[0]] + b[1..];
    }
  }

  lemma {:induction false} LexTransitive(a: string, b: string, c: string)
    requires LexLess(a, b) && LexLess(b, c)
    ensures LexLess(a, c) && a != c
    decreases a
  {
    if a != [] && a[0] == b[0] == c[0] {
      LexTransitive(a[1..], b[1..], c[1..]);
    }
  }

  predicate IsLeast(keys: set<string>, k: string) {
    k in keys && forall x :: x in keys ==> x == k || LexLess(k, x)
  }

  lemma {:induction false} LeastExists(keys: set<string>)
    requires keys != {}
    ensures exists k :: IsLeast(keys, k)
  {
    var x :| x in keys;
    if keys == {x} {
      assert IsLeast(keys, x);
    } else {
      LeastExists(keys - {x});
      var k :| IsLeast(keys - {x}, k);
      LexTotal(x, k);
      if LexLess(k, x) {
        assert IsLeast(keys, k);
      } else {
        forall y | y in keys && y != x ensures LexLess(x, y) {
          if y != k { LexTransitive(x, k, y); }
        }
        assert IsLeast(keys, x);
      }
    }
  }

  function Listing(objects: Objects, adj: string): set<string> {
    set k | k in objects && Lists(adj, k)
  }

  /** The first listed key is that of the highest block, so it tells the true file size. */
  lemma FirstKeyIsTop(objects: Objects, adj: string, bs: nat, key: string)
    requires FileOk(objects, adj, bs) && IsLeast(Listing(objects, adj), key)
    ensures GetObjectId(key).Some?
    ensures Place(bs, GetObjectId(key).value, |objects[key]|) == Size(BlocksOf(objects, adj), bs)
  {
    ListedIffBlock(objects, adj, key);
    var id: nat :| id <= MAX_OBJECT_ID && key == KeyOf(adj, id);
    IdOfKey(adj, id);
    var b := BlocksOf(objects, adj);
    forall j | j in b ensures j <= id {
      KeyShape(adj, j);
      ListedIffBlock(objects, adj, KeyOf(adj, j));
      KeysDecrease(adj, id, j);
      if id < j { LexAsymmetric(KeyOf(adj, j), key); }
    }
    SizeFromTop(b, bs, id);
  }

  lemma LexAsymmetric(a: string, b: string)
    requires LexLess(a, b)
    ensures !LexLess(b, a) && a != b
  {
    if LexLess(b, a) { LexTransitive(a, b, a); }
    if a == b { LexTransitive(a, b, a); }
  }

  lemma IdOfKey(adj: string, id: nat)
    requires id <= MAX_OBJECT_ID && IsPrefix(adj)
    ensures GetObjectId(KeyOf(adj, id)) == Some(id)
  {
    PaddedDigits(Mirror(id));
    AfterSlashOf(adj, Suffix(id));
  }

  lemma BlockIsListed(objects: Objects, adj: string, bs: nat, id: nat)
    requires FileOk(objects, adj, bs) && id in BlocksOf(objects, adj)
    ensures KeyOf(adj, id) in Listing(objects, adj)
  {
    KeyShape(adj, id);
    ListedIffBlock(objects, adj, KeyOf(adj, id));
  }

  lemma NothingListed(objects: Objects, adj: string, bs: nat)
    requires FileOk(objects, adj, bs) && Listing(objects, adj) == {}
    ensures BlocksOf(objects, adj) == map[]
  {
    if id :| id in BlocksOf(objects, adj) {
      BlockIsListed(objects, adj, bs, id);
    }
  }

  // -------------------------------------------------------------------- deletion

  /** The listed keys of the file's blocks from `first` on. */
  function KeysFrom(objects: Objects, adj: string, first: nat): set<string> {
    set k | k in Listing(objects, adj) && GetObjectId(k).Some? && GetObjectId(k).value >= first
  }

  lemma ListedId(objects: Objects, adj: string, key: string)
    requires WellKeyed(objects) && IsPrefix(adj) && key in Listing(objects, adj)
    ensures GetObjectId(key).Some?
  {
    ListedIffBlock(objects, adj, key);
    var id: nat :| id <= MAX_OBJECT_ID && key == KeyOf(adj, id);
    IdOfKey(adj, id);
  }

  lemma KeysFromAreBlocks(objects: Objects, adj: string, first: nat, id: nat)
    requires IsPrefix(adj) && id <= MAX_OBJECT_ID && KeyOf(adj, id) in objects
    ensures KeyOf(adj, id) in KeysFrom(objects, adj, first) <==> first <= id
  {
    KeyShape(adj, id);
    IdOfKey(adj, id);
  }

  lemma DropKeysBlocks(objects: Objects, adj: string, bs: nat, first: nat)
    requires FileOk(objects, adj, bs)
    ensures BlocksOf(objects - KeysFrom(objects, adj, first), adj)
         == BlocksBelow(BlocksOf(objects, adj), first)
  {
    var after := objects - KeysFrom(objects, adj, first);
    forall id: nat | id <= MAX_OBJECT_ID
      ensures KeyOf(adj, id) in after <==> KeyOf(adj, id) in objects && id < first
    {
      if KeyOf(adj, id) in objects { KeysFromAreBlocks(objects, adj, first, id); }
    }
  }

  /** Replacing the last kept block and dropping the later ones commute. */
  lemma KeysFromAfterPut(objects: Objects, adj: string, bs: nat, id: nat, data: Bytes)
    requires FileOk(objects, adj, bs) && id <= MAX_OBJECT_ID
    ensures KeysFrom(objects[KeyOf(adj, id) := data], adj, id + 1) == KeysFrom(objects, adj, id + 1)
  {
    IdOfKey(adj, id);
  }

  /** From one storage state to another, this file was cut or zero-extended to n bytes, and no other
      file changed. */
  ghost predicate Truncated(before: Objects, after: Objects, adj: string, bs: nat, n: nat) {
    && FileOk(after, adj, bs)
    && FileAt(after, adj, bs) == Truncate(FileAt(before, adj, bs), n)
    && OthersKept(before, after, adj)
  }

  lemma PutOk(objects: Objects, adj: string, bs: nat, id: nat, d: Bytes)
    requires FileOk(objects, adj, bs) && id <= MAX_OBJECT_ID && 1 <= |d| <= bs
    ensures FileOk(objects[KeyOf(adj, id) := d], adj, bs)
  {
    PutObject(objects, adj, id, d);
    PutWellKeyed(objects, adj, id, d);
  }

  lemma CutFileBlocks(objects: Objects, adj: string, bs: nat, id: nat, d: Bytes)
    requires FileOk(objects, adj, bs) && id <= MAX_OBJECT_ID && 1 <= |d| <= bs
    ensures BlocksOf(objects[KeyOf(adj, id) := d] - KeysFrom(objects, adj, id + 1), adj)
         == BlocksBelow(BlocksOf(objects, adj), id)[id := d]
  {
    PutOk(objects, adj, bs, id, d);
    PutObject(objects, adj, id, d);
    KeysFromAfterPut(objects, adj, bs, id, d);
    DropKeysBlocks(objects[KeyOf(adj, id) := d], adj, bs, id + 1);
    BelowAfterPut(BlocksOf(objects, adj), id, d);
  }

  lemma CutFileOthers(objects: Objects, adj: string, id: nat, d: Bytes)
    requires WellKeyed(objects) && IsPrefix(adj) && id <= MAX_OBJECT_ID
    ensures var after := objects[KeyOf(adj, id) := d] - KeysFrom(objects, adj, id + 1);
            WellKeyed(after) && OthersKept(objects, after, adj)
  {
    KeyShape(adj, id);
  }

  lemma CutFile(objects: Objects, adj: string, bs: nat, id: nat, n: nat)
    requires FileOk(objects, adj, bs) && id <= MAX_OBJECT_ID && 1 <= n <= bs
    ensures var d := Truncate(BlockOr(BlocksOf(objects, adj), id), n);
            Truncated(objects, objects[KeyOf(adj, id) := d] - KeysFrom(objects, adj, id + 1),
                      adj, bs, Place(bs, id, n))
  {
    var d := Truncate(BlockOr(BlocksOf(objects, adj), id), n);
    CutFileBlocks(objects, adj, bs, id, d);
    CutFileOthers(objects, adj, id, d);
    CutBlocks(BlocksOf(objects, adj), bs, id, n);
  }

  lemma EmptyFile(objects: Objects, adj: string, bs: nat)
    requires FileOk(objects, adj, bs)
    ensures Truncated(objects, objects - KeysFrom(objects, adj, 0), adj, bs, 0)
  {
    DropKeysBlocks(objects, adj, bs, 0);
    NoBlocks(BlocksOf(objects, adj), bs);
  }
}
