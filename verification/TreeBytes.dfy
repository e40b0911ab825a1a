/** Tree objects byte by byte, and what a checkout makes of each of their entries. */
module TreeBytes {
  import opened Wrappers
  import opened Bytes
  import opened Objects
  import opened TreeEntries
  import opened Checkout
  import opened Confinement
  import opened CheckoutTheorems
  import F = Files

  /** An entry with its mode as it is spelled in the tree. */
  datatype Item = Item(mode: string, name: bytes, oid: OID)

  function Text(item: Item): bytes {
    Ascii(item.mode) + Ascii(" ") + item.name + [0] + item.oid
  }

  function TreeText(items: seq<Item>): bytes {
    if items == [] then [] else Text(items[0]) + TreeText(items[1..])
  }

  /** One of the five modes that git writes; the last stands for a submodule. */
  predicate Legible(item: Item, raw: nat) {
    && item.mode in {"40000", "100644", "100755", "120000", "160000"}
    && item.name != [] && 0 !in item.name && |item.oid| == raw
  }

  predicate AllLegible(items: seq<Item>, raw: nat) {
    forall i :: 0 <= i < |items| ==> Legible(items[i], raw)
  }

  /** An object of the type with that code. */
  predicate Has(s: Index, oid: OID, code: int) {
    oid in s.byOID && s.byOID[oid].typ == code
  }

  /** The name is a single step down, and the object is there and fit for the mode. */
  ghost predicate Usable(s: Index, raw: nat, rank: OID -> nat, item: Item)
    requires Acyclic(s, raw, rank)
  {
    && item.name != [] && item.name != Ascii(".") && item.name != Ascii("..") && Ascii("/")[0] !in item.name
    && (item.mode == "40000" ==> Has(s, item.oid, 2) && SnapshotAt(s, raw, rank, item.oid).Ok?)
    && (item.mode == "100644" || item.mode == "100755" ==> Has(s, item.oid, 3))
    && (item.mode == "120000" ==>
          Has(s, item.oid, 3) && s.byOID[item.oid].data != [] && 0 !in s.byOID[item.oid].data)
  }

  /** What the entry puts at its path. */
  ghost predicate Puts(s: Index, item: Item, path: F.Path, fs: F.Tree) {
    && (item.mode == "40000" ==> path in fs && fs[path] == F.Dir)
    && (item.mode == "100644" ==>
          Has(s, item.oid, 3) && path in fs && fs[path] == F.File(s.byOID[item.oid].data, false))
    && (item.mode == "100755" ==>
          Has(s, item.oid, 3) && path in fs && fs[path] == F.File(s.byOID[item.oid].data, true))
    && (item.mode == "120000" ==>
          Has(s, item.oid, 3) && path in fs && fs[path] == F.Link(s.byOID[item.oid].data))
    && (item.mode == "160000" ==> path !in fs)
  }

  // ----- reading the text -----

  function Code(mode: string): nat {
    if mode == "40000" then DIRECTORY
    else if mode == "100644" then REGULAR
    else if mode == "100755" then EXECUTABLE
    else if mode == "120000" then SYMLINK
    else 0xe000
  }

  lemma OneDigitMore(n: nat, d: nat, text: string, c: char)
    requires n > 0 && d < 8 && Octal(n) == Ascii(text) && c as int == 0x30 + d
    ensures Octal(8 * n + d) == Ascii(text + [c])
  {
    assert Ascii(text + [c]) == Ascii(text) + [0x30 + d];
  }

  lemma OneDigit(d: nat, c: char)
    requires d < 8 && c as int == 0x30 + d
    ensures Octal(d) == Ascii([c])
  {}

  lemma DirectorySpelled()
    ensures Octal(DIRECTORY) == Ascii("40000")
  {
    OneDigit(4, '4');
    hide Octal, Ascii;
    OneDigitMore(0x4, 0, "4", '0');
    OneDigitMore(0x20, 0, "40", '0');
    OneDigitMore(0x100, 0, "400", '0');
    OneDigitMore(0x800, 0, "4000", '0');
  }

  lemma FilesSpelled()
    ensures Octal(REGULAR) == Ascii("100644") && Octal(EXECUTABLE) == Ascii("100755")
  {
    OneDigit(1, '1');
    hide Octal, Ascii;
    OneDigitMore(0x1, 0, "1", '0');
    OneDigitMore(0x8, 0, "10", '0');
    OneDigitMore(0x40, 6, "100", '6');
    OneDigitMore(0x206, 4, "1006", '4');
    OneDigitMore(0x1034, 4, "10064", '4');
    OneDigitMore(0x40, 7, "100", '7');
    OneDigitMore(0x207, 5, "1007", '5');
    OneDigitMore(0x103d, 5, "10075", '5');
  }

  lemma LinksSpelled()
    ensures Octal(SYMLINK) == Ascii("120000") && Octal(0xe000) == Ascii("160000")
  {
    OneDigit(1, '1');
    hide Octal, Ascii;
    OneDigitMore(0x1, 2, "1", '2');
    OneDigitMore(0xa, 0, "12", '0');
    OneDigitMore(0x50, 0, "120", '0');
    OneDigitMore(0x280, 0, "1200", '0');
    OneDigitMore(0x1400, 0, "12000", '0');
    OneDigitMore(0x1, 6, "1", '6');
    OneDigitMore(0xe, 0, "16", '0');
    OneDigitMore(0x70, 0, "160", '0');
    OneDigitMore(0x380, 0, "1600", '0');
    OneDigitMore(0x1c00, 0, "16000", '0');
  }

  function AsEntry(item: Item): TreeEntry {
    TreeEntry(item.name, Code(item.mode), item.oid)
  }

  function AsEntries(items: seq<Item>): seq<TreeEntry> {
    seq(|items|, i requires 0 <= i < |items| => AsEntry(items[i]))
  }

  lemma TextOfEntry(item: Item, raw: nat)
    requires Legible(item, raw)
    ensures Storable(AsEntry(item), raw) && WriteEntry(AsEntry(item)) == Text(item)
  {
    DirectorySpelled();
    FilesSpelled();
    LinksSpelled();
    assert Octal(Code(item.mode)) == Ascii(item.mode);
    hide Octal, Code;
    var m, space, nul := Ascii(item.mode), Ascii(" "), [0];
    assert space == [SPACE];
    Assoc(m + space, item.name, nul);
    Assoc(m + space, item.name + nul, item.oid);
  }

  lemma {:induction false} TextOfTree(items: seq<Item>, raw: nat)
    requires AllLegible(items, raw)
    ensures AllStorable(AsEntries(items), raw) && WriteTree(AsEntries(items)) == TreeText(items)
  {
    hide WriteEntry, Text, Storable, Legible, AsEntry;
    if items != [] {
      TextOfEntry(items[0], raw);
      TextOfTree(items[1..], raw);
      assert AsEntries(items)[1..] == AsEntries(items[1..]);
      assert forall i :: 0 < i < |items| ==> AsEntries(items)[i] == AsEntries(items[1..])[i - 1];
    }
  }

  /** The text of a tree is read as its entries. */
  lemma TextListed(items: seq<Item>, raw: nat)
    requires AllLegible(items, raw)
    ensures List(TreeText(items), 0, raw) == Listing(AsEntries(items), true)
  {
    hide List, TreeText, WriteTree, AllStorable;
    TextOfTree(items, raw);
    ListWriteTree([], AsEntries(items), raw);
    assert [] + TreeText(items) == TreeText(items);
  }

  // ----- which trees can be written out -----

  lemma UsableOne(s: Index, raw: nat, rank: OID -> nat, owner: OID, item: Item)
    requires Acyclic(s, raw, rank) && Legible(item, raw) && Descends(s, rank, owner, [AsEntry(item)])
    ensures ContentOf(s, raw, rank, owner, AsEntry(item)).Ok? <==> Usable(s, raw, rank, item)
  {
    hide Acyclic, Unfold, List;
    assert Ascii(".") == [0x2e] && Ascii("..") == [0x2e, 0x2e] && Ascii("/") == [0x2f];
    assert [AsEntry(item)][0] == AsEntry(item);
  }

  lemma {:induction false} UsableAll(s: Index, raw: nat, rank: OID -> nat, owner: OID, items: seq<Item>)
    requires Acyclic(s, raw, rank) && AllLegible(items, raw) && Descends(s, rank, owner, AsEntries(items))
    ensures Unfold(s, raw, rank, owner, Listing(AsEntries(items), true)).Ok? <==>
              forall i :: 0 <= i < |items| ==> Usable(s, raw, rank, items[i])
  {
    hide Acyclic, ContentOf, AsEntry, Legible;
    if items != [] {
      var es := AsEntries(items);
      assert es[1..] == AsEntries(items[1..]);
      assert es[0] == AsEntry(items[0]) && [es[0]][0] == es[0];
      hide Usable;
      UsableOne(s, raw, rank, owner, items[0]);
      UsableAll(s, raw, rank, owner, items[1..]);
      assert forall i :: 0 < i < |items| ==> items[i] == items[1..][i - 1];
    }
  }

  /** A tree is usable exactly when each entry in its text is. */
  lemma TreeUsable(s: Index, raw: nat, rank: OID -> nat, oid: OID, items: seq<Item>)
    requires Acyclic(s, raw, rank) && AllLegible(items, raw)
    requires Has(s, oid, 2) && s.byOID[oid].data == TreeText(items)
    ensures SnapshotAt(s, raw, rank, oid).Ok? <==> forall i :: 0 <= i < |items| ==> Usable(s, raw, rank, items[i])
  {
    hide Acyclic, Usable, Unfold, List, AsEntries;
    SubtreesDescend(s, raw, rank, oid);
    TextListed(items, raw);
    UsableAll(s, raw, rank, oid, items);
  }

  // ----- what each entry leaves -----

  lemma {:induction false} FlattenBelow(t: Snapshot, dir: F.Path, p: F.Path)
    requires p in Flatten(t, dir)
    ensures Below(dir, p) && p[|dir|] in Names(t)
  {
    var path := dir + [t.name];
    BelowStep(dir, t.name, p);
    if p !in Flatten(t.rest, dir) {
      if p != path {
        FlattenBelow(t.content.tree, path, p);
      }
    } else {
      FlattenBelow(t.rest, dir, p);
    }
  }

  lemma PutsOne(s: Index, raw: nat, rank: OID -> nat, owner: OID, item: Item, path: F.Path)
    requires Acyclic(s, raw, rank) && Legible(item, raw) && Descends(s, rank, owner, [AsEntry(item)])
    requires ContentOf(s, raw, rank, owner, AsEntry(item)).Ok?
    ensures Puts(s, item, path, FlattenOne(ContentOf(s, raw, rank, owner, AsEntry(item)).value, path))
  {
    hide Acyclic, Unfold, List;
    var e := AsEntry(item);
    assert [e][0] == e;
    var c := ContentOf(s, raw, rank, owner, e).value;
    if c.Folder? && path in Flatten(c.tree, path) {
      FlattenBelow(c.tree, path, path);
      assert false;
    }
  }

  predicate DistinctItems(items: seq<Item>) {
    forall i, j :: 0 <= i < j < |items| ==> items[i].name != items[j].name
  }

  lemma {:induction false} PutsAll(s: Index, raw: nat, rank: OID -> nat, owner: OID, items: seq<Item>, dir: F.Path)
    requires Acyclic(s, raw, rank) && AllLegible(items, raw) && Descends(s, rank, owner, AsEntries(items))
    requires Unfold(s, raw, rank, owner, Listing(AsEntries(items), true)).Ok? && DistinctItems(items)
    ensures var t := Unfold(s, raw, rank, owner, Listing(AsEntries(items), true)).value;
            && (forall i :: 0 <= i < |items| ==> Puts(s, items[i], dir + [items[i].name], Flatten(t, dir)))
            && (forall name :: name in Names(t) ==> exists i :: 0 <= i < |items| && items[i].name == name)
  {
    hide Acyclic, ContentOf, Legible, Flatten, Puts;
    if items != [] {
      var es, more := AsEntries(items), items[1..];
      assert es[1..] == AsEntries(more);
      assert es[0] == AsEntry(items[0]) && [es[0]][0] == es[0];
      assert forall i :: 0 < i < |items| ==> items[i] == more[i - 1];
      PutsAll(s, raw, rank, owner, more, dir);
      PutsOne(s, raw, rank, owner, items[0], dir + [items[0].name]);
      var t := Unfold(s, raw, rank, owner, Listing(es, true)).value;
      PutsFirst(s, items[0], t, dir);
      forall i | 0 < i < |items|
        ensures Puts(s, items[i], dir + [items[i].name], Flatten(t, dir))
      {
        PutsLater(s, items[i], t, dir);
      }
    }
  }

  lemma PutsFirst(s: Index, item: Item, t: Snapshot, dir: F.Path)
    requires t.Entry? && t.name == item.name && item.name !in Names(t.rest)
    requires Puts(s, item, dir + [item.name], FlattenOne(t.content, dir + [item.name]))
    ensures Puts(s, item, dir + [item.name], Flatten(t, dir))
  {
    hide FlattenOne;
    var path := dir + [item.name];
    assert path[|dir|] == item.name;
    if path in Flatten(t.rest, dir) {
      FlattenBelow(t.rest, dir, path);
    }
  }

  lemma PutsLater(s: Index, item: Item, t: Snapshot, dir: F.Path)
    requires t.Entry? && t.name != item.name
    requires Puts(s, item, dir + [item.name], Flatten(t.rest, dir))
    ensures Puts(s, item, dir + [item.name], Flatten(t, dir))
  {
    var path, other := dir + [item.name], dir + [t.name];
    assert path[|dir|] == item.name && other[|dir|] == t.name;
    if t.content.Folder? && path in Flatten(t.content.tree, other) {
      FlattenBelow(t.content.tree, other, path);
    }
  }

  /** With distinct names, a successful walk over the text of a tree has done with each entry what its mode says. */
  lemma EntriesWritten(s: Index, raw: nat, rank: OID -> nat, oid: OID, items: seq<Item>, dir: F.Path, fs: F.Tree,
                       n: nat, i: nat)
    requires Acyclic(s, raw, rank) && AllLegible(items, raw) && DistinctItems(items) && i < |items|
    requires Has(s, oid, 2) && s.byOID[oid].data == TreeText(items)
    ensures var text, path := List(TreeText(items), 0, raw), dir + [items[i].name];
            && Descends(s, rank, oid, text.entries)
            && var w := Walk(s, raw, rank, oid, text, dir, fs, n);
               w.written.Ok? ==>
                 if items[i].mode == "160000" then
                   (path in w.fs <==> path in fs) && (path in fs ==> w.fs[path] == fs[path])
                 else Puts(s, items[i], path, w.fs)
  {
    hide Acyclic, Walk, List, AsEntries, Unfold, Flatten, Legible, LeafPaths;
    SubtreesDescend(s, raw, rank, oid);
    TextListed(items, raw);
    var text := List(TreeText(items), 0, raw);
    if Walk(s, raw, rank, oid, text, dir, fs, n).written.Ok? {
      WalkSound(s, raw, rank, oid, text, dir, fs, n);
      PutsAll(s, raw, rank, oid, items, dir);
      assert Legible(items[i], raw);
    }
  }
}
