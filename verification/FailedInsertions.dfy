/** What is left of a directory whose insertion found no space: its first bytes have been written over. */
module FailedInsertions {
  import opened Basics
  import opened Clusters
  import opened Inodes
  import opened FlatFile
  import opened Entries
  import opened Directories

  // ----- What a failed insertion leaves -----

  /** Two sequences of records that share the bytes of the first record share the record. */
  lemma SameFirstRecord(a: Entry, b: Entry, x: seq<byte>, y: seq<byte>, n: nat)
    requires EntryOk(a) && EntryOk(b) && RecordLength(|b.name|) <= n
    requires n <= |Record(a) + x| && n <= |Record(b) + y| && (Record(a) + x)[..n] == (Record(b) + y)[..n]
    ensures a == b
  {
    var p, q := Record(a) + x, Record(b) + y;
    RecordParts(a, x);
    RecordParts(b, y);
    assert p[0..4] == p[..n][0..4] && q[0..4] == q[..n][0..4];
    assert p[4..6] == p[..n][4..6] && q[4..6] == q[..n][4..6];
    var m := RecordLength(|b.name|);
    assert p[..n][..m] == Record(a) && q[..n][..m] == Record(b);
    RecordParts(a, []);
    RecordParts(b, []);
    assert Record(a) + [] == Record(a) && Record(b) + [] == Record(b);
  }

  lemma RecordInFront(es: seq<Entry>, e: Entry)
    requires StrictlySorted(es) && EntriesOk(es) && EntryOk(e) && es != [] && e.name != es[0].name
    ensures |Serialize([e] + es)| == |Record(e)| + |Serialize(es)|
    ensures Serialize([e] + es)[..|Serialize(es)|] != Serialize(es)
  {
    var n := |Serialize(es)|;
    assert ([e] + es)[1..] == es;
    if Serialize([e] + es)[..n] == Serialize(es) {
      assert Serialize(es)[..n] == Serialize(es);
      SameFirstRecord(e, es[0], Serialize(es), Serialize(es[1..]), n);
    }
  }

  /**
   A directory whose insertion found no space shows the first bytes of its new contents: it is as before exactly
   when the new name sorts after all the others.
   */
  lemma {:induction false} FailedInsertion(es: seq<Entry>, e: Entry)
    requires StrictlySorted(es) && EntriesOk(es) && EntryOk(e) && !Has(es, e.name)
    ensures |Serialize(es)| <= |Serialize(Placed(es, e))|
    ensures Serialize(Placed(es, e))[..|Serialize(es)|] == Serialize(es) <==>
            forall i :: 0 <= i < |es| ==> Compare(es[i].name, e.name) < 0
  {
    hide Record, Compare;
    SerializedLength(es, e);
    if es == [] {
    } else if Compare(e.name, es[0].name) <= 0 {
      assert es[0].name != e.name;
      CompareReversed(e.name, es[0].name);
      CompareReversed(es[0].name, e.name);
      RecordInFront(es, e);
    } else {
      var rest := es[1..];
      CompareReversed(es[0].name, e.name);
      assert forall i :: 0 <= i < |rest| ==> rest[i] == es[i + 1];
      assert !Has(rest, e.name);
      FailedInsertion(rest, e);
      FailedBehind(es[0], Serialize(rest), Serialize(Placed(rest, e)));
      assert Placed(es, e)[1..] == Placed(rest, e);
      AllBelow(es, e);
    }
  }

  /** The name sorts after every name of the directory. */
  ghost predicate SortsLast(names: map<Name, nat>, name: Name) {
    forall k :: k in names ==> Compare(k, name) < 0
  }

  lemma LastOfEntries(es: seq<Entry>, name: Name)
    requires Unique(es)
    ensures SortsLast(Names(es), name) <==> forall i :: 0 <= i < |es| ==> Compare(es[i].name, name) < 0
  {
    hide Names, Compare;
    forall k ensures k in Names(es) <==> Has(es, k) {
      NamesKeys(es, k);
    }
    if SortsLast(Names(es), name) {
      forall i | 0 <= i < |es| ensures Compare(es[i].name, name) < 0 {
        assert Has(es, es[i].name);
      }
    }
  }

  /** It is enough to look at the last entry. */
  lemma LastSortsLast(es: seq<Entry>, name: Name)
    requires StrictlySorted(es)
    ensures SortsLast(Names(es), name) <==> es == [] || Compare(es[|es| - 1].name, name) < 0
  {
    SortedIsUnique(es);
    hide Names, Compare;
    LastOfEntries(es, name);
    if es != [] && Compare(es[|es| - 1].name, name) < 0 {
      forall i | 0 <= i < |es| ensures Compare(es[i].name, name) < 0 {
        if i < |es| - 1 {
          CompareTransitive(es[i].name, es[|es| - 1].name, name);
        }
      }
    }
  }

  /**
   After an insertion that found no space the directory still shows what it showed exactly when the new name sorts
   after all its names.
   */
  lemma FailedDirectory(disk: seq<Cluster>, disk': seq<Cluster>, ino: Inode, e: Entry)
    requires GoodDirectory(disk, ino) && EntryOk(e) && e.name !in Dir(disk, ino) && Dense(disk', ino)
    requires var bytes := Serialize(Placed(Listing(disk, ino), e));
             ino.size <= |bytes| && Content(disk', ino) == bytes[..ino.size]
    ensures GoodDirectory(disk', ino) && Dir(disk', ino) == Dir(disk, ino) <==> SortsLast(Dir(disk, ino), e.name)
  {
    var es := Listing(disk, ino);
    GoodEntries(disk, ino);
    hide Serialize, Placed, Names, StrictlySorted, EntriesOk, Dense;
    NamesKeys(es, e.name);
    FailedInsertion(es, e);
    LastOfEntries(es, e.name);
    if SortsLast(Names(es), e.name) {
      SavedDirectory(disk', ino, es);
    }
    if GoodDirectory(disk', ino) && Dir(disk', ino) == Dir(disk, ino) {
      SortedDetermined(es, Listing(disk', ino));
    }
  }

  lemma AllBelow(es: seq<Entry>, e: Entry)
    requires es != [] && Compare(es[0].name, e.name) < 0
    ensures (forall i :: 0 <= i < |es| ==> Compare(es[i].name, e.name) < 0) <==>
            (forall i :: 0 <= i < |es| - 1 ==> Compare(es[1..][i].name, e.name) < 0)
  {
    if forall i :: 0 <= i < |es| - 1 ==> Compare(es[1..][i].name, e.name) < 0 {
      forall i | 0 <= i < |es| ensures Compare(es[i].name, e.name) < 0 {
        if i > 0 {
          assert es[1..][i - 1] == es[i];
        }
      }
    }
  }

  lemma FailedBehind(first: Entry, x: seq<byte>, y: seq<byte>)
    requires |x| <= |y|
    ensures (Record(first) + y)[..|Record(first) + x|] == Record(first) + x <==> y[..|x|] == x
  {
    var r := Record(first);
    assert (r + y)[..|r + x|] == r + y[..|x|];
    if r + y[..|x|] == r + x {
      assert (r + y[..|x|])[|r|..] == y[..|x|] && (r + x)[|r|..] == x;
    }
  }

  // ----- A directory that loses a name -----

  /** The names "b", then a letter for i / 200 and one for i % 200. */
  function NumberedName(i: nat): Name
    requires i < 40000
  {
    [98, 48 + i / 200, 49 + i % 200]
  }

  /** A directory of n files. */
  function Crowd(n: nat): (es: seq<Entry>)
    requires n <= 339
    ensures |es| == n + 2
  {
    [Entry(2, DOT), Entry(2, DOT_DOT)] + seq(n, i requires 0 <= i < n => Entry(3 + i, NumberedName(i)))
  }

  lemma NumberedSorted(i: nat, j: nat)
    requires i < j < 339
    ensures Compare(NumberedName(i), NumberedName(j)) < 0
  {
    var a, b := NumberedName(i), NumberedName(j);
    assert a[1..] == [48 + i / 200, 49 + i % 200] && b[1..] == [48 + j / 200, 49 + j % 200];
    assert a[1..][1..] == [49 + i % 200] && b[1..][1..] == [49 + j % 200];
    assert Compare(a, b) == Compare(a[1..], b[1..]);
    assert i == 200 * (i / 200) + i % 200 && j == 200 * (j / 200) + j % 200;
    if i / 200 == j / 200 {
      assert Compare(a[1..], b[1..]) == Compare(a[1..][1..], b[1..][1..]);
    }
  }

  lemma CrowdSorted(n: nat)
    requires n <= 339
    ensures StrictlySorted(Crowd(n)) && EntriesOk(Crowd(n))
  {
    var es := Crowd(n);
    assert DOT[1..] == [] && DOT_DOT[1..] == [46];
    forall i, j | 0 <= i < j < |es| ensures Compare(es[i].name, es[j].name) < 0 {
      if i >= 2 {
        NumberedSorted(i - 2, j - 2);
      }
    }
    forall i | 0 <= i < |es| ensures EntryOk(es[i]) {
    }
  }

  lemma {:induction false} EvenLength(es: seq<Entry>, w: nat)
    requires forall i :: 0 <= i < |es| ==> RecordLength(|es[i].name|) == w
    ensures |Serialize(es)| == |es| * w
  {
    hide Record, RecordLength;
    if es != [] {
      EvenLength(es[1..], w);
      OneMore(|es|, w);
    }
  }

  lemma CrowdLength(n: nat)
    requires n <= 339
    ensures |Serialize(Crowd(n))| == 12 * (n + 2)
  {
    var es := Crowd(n);
    forall i | 0 <= i < |es| ensures RecordLength(|es[i].name|) == 12 {
      assert |es[i].name| <= 3;
    }
    EvenLength(es, 12);
  }

  /** The name "a" sorts behind "." and ".." and before all others. */
  lemma PlacedInCrowd(n: nat, e: Entry)
    requires n <= 339 && e.name == [97] && n > 0
    ensures Placed(Crowd(n), e) == Crowd(n)[..2] + [e] + Crowd(n)[2..]
  {
    var es := Crowd(n);
    assert es[1..][0] == es[1] && es[1..][1..] == es[2..] && es[2..][0] == es[2] && es[2].name[0] == 98;
    assert Placed(es[2..], e) == [e] + es[2..];
    assert Placed(es[1..], e) == [es[1]] + ([e] + es[2..]);
  }

  /**
   A full disk, a directory of 339 files that fills one cluster to 4092 bytes, a new file "a": the insertion fails,
   and from then on the directory names "a", whose inode is free, and no longer names the last of its files.
   */
  lemma CrowdLosesName(id: nat)
    requires id < MAX_CLUSTERS
    ensures var es, e := Crowd(339), Entry(id, [97]);
            var bytes := Serialize(Placed(es, e));
            && StrictlySorted(es) && EntriesOk(es) && ValidName(e.name) && !Has(es, e.name) && es[340].name == NumberedName(338)
            && |Serialize(es)| <= CLUSTER_SIZE < |bytes|
            && Parse(bytes[..|Serialize(es)|]) == Placed(es[..340], e)
            && Has(Parse(bytes[..|Serialize(es)|]), e.name) && !Has(Parse(bytes[..|Serialize(es)|]), NumberedName(338))
  {
    var es, e := Crowd(339), Entry(id, [97]);
    var kept, last := Placed(es[..340], e), [es[340]];
    hide Serialize, Placed, Parse, Crowd, NumberedName, Compare, StrictlySorted;
    CrowdSorted(339);
    CrowdLength(339);
    CrowdKept(id);
    SerializedLength(es, e);
    SerializedJoin(kept, last);
    assert (Serialize(kept) + Serialize(last))[..|Serialize(kept)|] == Serialize(kept);
    ParseSerialized(kept);
    assert kept[2] == e;
  }

  lemma CrowdNames()
    ensures var es := Crowd(339);
            && Crowd(338) == es[..340] && es[340].name == NumberedName(338)
            && (forall i :: 0 <= i < |es| ==> es[i].name != [97])
            && forall i :: 0 <= i < 340 ==> es[i].name != NumberedName(338)
  {
    var es := Crowd(339);
    forall i | 0 <= i < 340 ensures es[i].name != NumberedName(338) {
      if i >= 2 {
        NumberedSorted(i - 2, 338);
      }
    }
  }

  lemma NewName()
    ensures ValidName([97]) && IsCString([97]) && RecordLength(1) == 12
  {
  }

  lemma CrowdKept(id: nat)
    requires id < MAX_CLUSTERS
    ensures var es, e := Crowd(339), Entry(id, [97]);
            var kept := Placed(es[..340], e);
            && Placed(es, e) == kept + [es[340]] && EntriesOk(kept) && |kept| > 2 && kept[2] == e
            && |Serialize(kept)| == 4092 && RecordLength(|e.name|) == 12
            && ValidName(e.name) && !Has(es, e.name) && es[340].name == NumberedName(338)
            && !Has(kept, NumberedName(338))
  {
    hide Serialize, Placed, Compare, StrictlySorted, Crowd, NumberedName, ValidName, RecordLength, IsCString;
    var es, e := Crowd(339), Entry(id, [97]);
    NewName();
    CrowdNames();
    CrowdSorted(339);
    CrowdLength(338);
    PlacedInCrowd(339, e);
    PlacedInCrowd(338, e);
    SerializedLength(es[..340], e);
    var kept := Placed(es[..340], e);
    assert kept == es[..2] + [e] + es[2..340];
    forall i | 0 <= i < |kept| ensures EntryOk(kept[i]) && kept[i].name != NumberedName(338) {
      if i == 2 {
        NotNumbered(338);
      } else {
        assert kept[i] == es[if i < 2 then i else i - 1];
      }
    }
  }

  lemma NotNumbered(i: nat)
    requires i < 339
    ensures NumberedName(i) != [97]
  {
  }
}
