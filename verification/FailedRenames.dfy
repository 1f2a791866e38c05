/** What is left of a directory whose renaming found no space: it is never the directory it was. */
module FailedRenames {
  import opened Clusters
  import opened Inodes
  import opened FlatFile
  import opened Entries
  import opened Directories
  import opened FailedInsertions

  /** As many records that begin with all the bytes of other records are those records. */
  lemma {:induction false} SameRecords(es: seq<Entry>, fs: seq<Entry>)
    requires EntriesOk(es) && EntriesOk(fs) && |es| == |fs|
    requires |Serialize(es)| <= |Serialize(fs)| && Serialize(fs)[..|Serialize(es)|] == Serialize(es)
    ensures es == fs
  {
    hide Record;
    if es != [] {
      var x, y, n := Serialize(es[1..]), Serialize(fs[1..]), |Serialize(es)|;
      assert Serialize(es)[..n] == Serialize(es);
      SameFirstRecord(fs[0], es[0], y, x, n);
      FailedBehind(es[0], x, y);
      SameRecords(es[1..], fs[1..]);
      assert es == [es[0]] + es[1..] && fs == [fs[0]] + fs[1..];
    }
  }

  lemma RenamedSize(es: seq<Entry>, oldName: Name, newName: Name)
    requires StrictlySorted(es) && EntriesOk(es) && Has(es, oldName) && !Has(es, newName)
    requires IsCString(newName) && |newName| <= MAX_FILENAME_LENGTH
    ensures var fs := Renamed(es, oldName, newName);
            && EntriesOk(fs) && |fs| == |es|
            && |Serialize(fs)| == |Serialize(es)| - RecordLength(|oldName|) + RecordLength(|newName|)
  {
    var k :| 0 <= k < |es| && es[k].name == oldName;
    SortedIsUnique(es);
    hide Renamed, Sort, Serialize, StrictlySorted, Unique, RecordLength, EntriesOk, Has;
    RenamedAt(es, k, newName);
    RenamedEntries(es, k, newName);
    SortMembers(es[k := Entry(es[k].inodeId, newName)]);
  }

  /**
   A renaming that found no space shows the first bytes of the new contents. The directory is then no longer one in
   order, or it names other inodes than before: the old entries are never what is left.
   */
  lemma FailedRename(disk: seq<Cluster>, disk': seq<Cluster>, ino: Inode, oldName: Name, newName: Name)
    requires GoodDirectory(disk, ino) && Dense(disk', ino)
    requires oldName in Dir(disk, ino) && newName !in Dir(disk, ino) && IsCString(newName) && ValidName(newName)
    requires var bytes := Serialize(Renamed(Listing(disk, ino), oldName, newName));
             ino.size < |bytes| && Content(disk', ino) == bytes[..ino.size]
    ensures !(GoodDirectory(disk', ino) && Dir(disk', ino) == Dir(disk, ino))
    ensures RecordLength(|oldName|) < RecordLength(|newName|)
  {
    var es := Listing(disk, ino);
    var fs := Renamed(es, oldName, newName);
    GoodEntries(disk, ino);
    hide Serialize, Renamed, Names, StrictlySorted, EntriesOk, Dense, RecordLength;
    RenamedSize(es, oldName, newName);
    if GoodDirectory(disk', ino) && Dir(disk', ino) == Dir(disk, ino) {
      SortedDetermined(es, Listing(disk', ino));
      SameRecords(es, fs);
      assert false;
    }
  }

  // ----- A directory that loses two names -----

  /** The name of twelve times "a". */
  function LongName(): Name {
    seq(12, _ => 97)
  }

  lemma LongNameFacts()
    ensures ValidName(LongName()) && IsCString(LongName()) && RecordLength(|LongName()|) == 24
    ensures Compare(DOT, LongName()) < 0 && Compare(DOT_DOT, LongName()) < 0
    ensures forall i :: 0 <= i < 339 ==> Compare(LongName(), NumberedName(i)) < 0
  {
  }

  /** Crowd(n) with its first file under the long name. */
  function RenamedCrowd(n: nat): (es: seq<Entry>)
    requires 0 < n <= 339
    ensures |es| == n + 2
  {
    Crowd(n)[2 := Entry(3, LongName())]
  }

  lemma RenamedCrowdSorted(n: nat)
    requires 0 < n <= 339
    ensures StrictlySorted(RenamedCrowd(n)) && EntriesOk(RenamedCrowd(n))
    ensures forall i :: 0 <= i < n + 2 && i != 2 ==> RenamedCrowd(n)[i] == Crowd(n)[i]
  {
    var es, fs := Crowd(n), RenamedCrowd(n);
    CrowdSorted(n);
    LongNameFacts();
    hide Compare, NumberedName, LongName;
    forall i, j | 0 <= i < j < |fs| ensures Compare(fs[i].name, fs[j].name) < 0 {
      assert i != 2 && j != 2 ==> Compare(es[i].name, es[j].name) < 0;
    }
  }

  lemma RenamedCrowdLength(n: nat)
    requires 0 < n <= 339
    ensures |Serialize(RenamedCrowd(n))| == 12 * (n + 3)
  {
    CrowdLength(n);
    LongNameFacts();
    ReplacedLength(Crowd(n), 2, Entry(3, LongName()));
  }

  /**
   A full disk and a directory of 339 files that fills one cluster to 4092 bytes: renaming its first file to a name of
   twelve characters fails, and from then on the directory names neither the file's old name nor its last file.
   */
  lemma CrowdLosesTwo()
    ensures var es, name := Crowd(339), NumberedName(0);
            var bytes := Serialize(Renamed(es, name, LongName()));
            && StrictlySorted(es) && EntriesOk(es) && ValidName(LongName()) && Has(es, name) && !Has(es, LongName())
            && Has(es, NumberedName(338)) && |Serialize(es)| <= CLUSTER_SIZE < |bytes|
            && Parse(bytes[..|Serialize(es)|]) == RenamedCrowd(338)
            && Has(RenamedCrowd(338), LongName())
            && !Has(RenamedCrowd(338), name) && !Has(RenamedCrowd(338), NumberedName(338))
  {
    var es, fs, kept := Crowd(339), RenamedCrowd(339), RenamedCrowd(338);
    CrowdSorted(339);
    CrowdLength(339);
    LongNameFacts();
    RenamedCrowdSorted(339);
    RenamedCrowdSorted(338);
    RenamedCrowdLength(339);
    RenamedCrowdLength(338);
    CrowdRenamed();
    hide Serialize, Parse, Compare, StrictlySorted, LongName, Renamed, NumberedName, Sort, ValidName, RecordLength;
    hide IsCString;
    SerializedJoin(kept, [fs[340]]);
    assert (Serialize(kept) + Serialize([fs[340]]))[..|Serialize(kept)|] == Serialize(kept);
    ParseSerialized(kept);
    assert kept[2].name == LongName() && es[2].name == NumberedName(0) && es[340].name == NumberedName(338);
  }

  lemma CrowdRenamed()
    ensures Renamed(Crowd(339), NumberedName(0), LongName()) == RenamedCrowd(339) == RenamedCrowd(338) + [Crowd(339)[340]]
    ensures !Has(Crowd(339), LongName())
    ensures !Has(RenamedCrowd(338), NumberedName(0)) && !Has(RenamedCrowd(338), NumberedName(338))
  {
    var es := Crowd(339);
    CrowdSorted(339);
    SortedIsUnique(es);
    RenamedCrowdSorted(339);
    CrowdFirst();
    NewToCrowd();
    hide Compare, StrictlySorted, LongName, Sort, Renamed, NumberedName, Crowd;
    RenamedAt(es, 2, LongName());
    SortSorted(RenamedCrowd(339));
    GoneFromCrowd();
  }

  lemma CrowdFirst()
    ensures Crowd(339)[2] == Entry(3, NumberedName(0))
    ensures RenamedCrowd(339) == RenamedCrowd(338) + [Crowd(339)[340]]
  {
    hide NumberedName, LongName;
  }

  lemma NewToCrowd()
    ensures !Has(Crowd(339), LongName())
  {
    var es := Crowd(339);
    forall i | 0 <= i < |es| ensures es[i].name != LongName() {
      assert |es[i].name| <= 3;
    }
  }

  lemma GoneFromCrowd()
    ensures !Has(RenamedCrowd(338), NumberedName(0)) && !Has(RenamedCrowd(338), NumberedName(338))
  {
    var kept := RenamedCrowd(338);
    forall i | 0 <= i < 340 ensures kept[i].name != NumberedName(0) && kept[i].name != NumberedName(338) {
      if i > 2 {
        NumberedSorted(0, i - 2);
        NumberedSorted(i - 2, 338);
      }
    }
  }
}
