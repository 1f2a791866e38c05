/** Directory entries: their order, their records on disk, and the finite map they stand for. */
module Entries {
  import opened Basics
  import opened Clusters

  const MAX_FILENAME_LENGTH := 255
  const DENTRY_SIZE := 8

  /** A name as the bytes of a C string, without the terminator. */
  type Name = seq<byte>

  datatype Entry = Entry(inodeId: nat, name: Name)

  const DOT: Name := [46]
  const DOT_DOT: Name := [46, 46]

  predicate IsCString(name: seq<byte>) {
    forall i :: 0 <= i < |name| ==> name[i] != 0
  }

  /** The names that may be given to a new entry. */
  predicate ValidName(name: Name) {
    && name != [] && name != DOT && name != DOT_DOT && |name| <= MAX_FILENAME_LENGTH
    && forall i :: 0 <= i < |name| ==> name[i] != 47 && name[i] != 92
  }

  predicate EntryOk(e: Entry) {
    IsCString(e.name) && |e.name| <= MAX_FILENAME_LENGTH && e.inodeId < MAX_CLUSTERS
  }

  ghost predicate EntriesOk(es: seq<Entry>) {
    forall i :: 0 <= i < |es| ==> EntryOk(es[i])
  }

  // ----- The order of names -----

  /** strcmp: negative, zero or positive. */
  function Compare(a: Name, b: Name): (c: int)
    ensures c == 0 <==> a == b
  {
    if a == [] && b == [] then 0
    else if a == [] then -1
    else if b == [] then 1
    else if a[0] != b[0] then a[0] - b[0]
    else
      assert a == [a[0]] + a[1..] && b == [b[0]] + b[1..];
      Compare(a[1..], b[1..])
  }

  lemma {:induction false} CompareReversed(a: Name, b: Name)
    ensures Compare(a, b) < 0 <==> Compare(b, a) > 0
  {
    if a != [] && b != [] && a[0] == b[0] {
      CompareReversed(a[1..], b[1..]);
    }
  }

  lemma {:induction false} CompareTransitive(a: Name, b: Name, c: Name)
    requires Compare(a, b) < 0 && Compare(b, c) < 0
    ensures Compare(a, c) < 0
  {
    if a != [] && b != [] && c != [] && a[0] == b[0] == c[0] {
      CompareTransitive(a[1..], b[1..], c[1..]);
    }
  }

  /** One name is before another when it goes on where the other ends, or has the smaller byte where they first differ. */
  lemma {:induction false} CompareIsLexicographic(a: Name, b: Name)
    ensures Compare(a, b) < 0 <==>
            exists n: nat ::
              && n <= |a| && n <= |b| && a[..n] == b[..n]
              && ((n == |a| && n < |b|) || (n < |a| && n < |b| && a[n] as int < b[n] as int))
  {
    if a != [] && b != [] && a[0] == b[0] {
      CompareIsLexicographic(a[1..], b[1..]);
      if Compare(a, b) < 0 {
        var n: nat :| n <= |a[1..]| && n <= |b[1..]| && a[1..][..n] == b[1..][..n]
                      && ((n == |a[1..]| && n < |b[1..]|) || (n < |a[1..]| && n < |b[1..]| && a[1..][n] < b[1..][n]));
        assert a[..n + 1] == [a[0]] + a[1..][..n] && b[..n + 1] == [b[0]] + b[1..][..n];
      }
      if exists n: nat :: n <= |a| && n <= |b| && a[..n] == b[..n]
                          && ((n == |a| && n < |b|) || (n < |a| && n < |b| && a[n] < b[n])) {
        var n: nat :| n <= |a| && n <= |b| && a[..n] == b[..n]
                      && ((n == |a| && n < |b|) || (n < |a| && n < |b| && a[n] < b[n]));
        assert n > 0;
        assert a[1..][..n - 1] == a[..n][1..] && b[1..][..n - 1] == b[..n][1..];
      }
    } else if a != [] && b != [] {
      assert a[..0] == b[..0];
      forall n: nat | 0 < n <= |a| && n <= |b| ensures a[..n] != b[..n] {
        assert a[..n][0] == a[0] && b[..n][0] == b[0];
      }
    } else if a == [] && b != [] {
      assert a[..0] == b[..0];
    }
  }

  ghost predicate StrictlySorted(es: seq<Entry>) {
    forall i, j :: 0 <= i < j < |es| ==> Compare(es[i].name, es[j].name) < 0
  }

  ghost predicate Unique(es: seq<Entry>) {
    forall i, j :: 0 <= i < |es| && 0 <= j < |es| && es[i].name == es[j].name ==> i == j
  }

  lemma SortedIsUnique(es: seq<Entry>)
    requires StrictlySorted(es)
    ensures Unique(es)
  {
  }

  // ----- Sorting -----

  /** e put in its place in a sorted sequence. */
  function Placed(es: seq<Entry>, e: Entry): (r: seq<Entry>) {
    if es == [] || Compare(e.name, es[0].name) <= 0 then [e] + es
    else [es[0]] + Placed(es[1..], e)
  }

  function Sort(es: seq<Entry>): (r: seq<Entry>) {
    if es == [] then [] else Placed(Sort(es[..|es| - 1]), es[|es| - 1])
  }

  lemma {:induction false} PlacedMembers(es: seq<Entry>, e: Entry)
    ensures |Placed(es, e)| == |es| + 1
    ensures forall x :: x in Placed(es, e) <==> x in es || x == e
  {
    if !(es == [] || Compare(e.name, es[0].name) <= 0) {
      PlacedMembers(es[1..], e);
      assert es == [es[0]] + es[1..];
    }
  }

  lemma SortedFront(e: Entry, rest: seq<Entry>)
    requires StrictlySorted(rest) && forall x :: x in rest ==> Compare(e.name, x.name) < 0
    ensures StrictlySorted([e] + rest)
  {
    var all := [e] + rest;
    forall i, j | 0 <= i < j < |all| ensures Compare(all[i].name, all[j].name) < 0 {
      assert all[j] == rest[j - 1] && rest[j - 1] in rest;
    }
  }

  lemma {:induction false} PlacedSorted(es: seq<Entry>, e: Entry)
    requires StrictlySorted(es) && forall x :: x in es ==> x.name != e.name
    ensures StrictlySorted(Placed(es, e))
  {
    hide Compare;
    if es == [] {
    } else if Compare(e.name, es[0].name) <= 0 {
      forall x | x in es ensures Compare(e.name, x.name) < 0 {
        var j :| 0 <= j < |es| && es[j] == x;
        if j > 0 {
          assert es[0] in es;
          CompareTransitive(e.name, es[0].name, x.name);
        }
      }
      SortedFront(e, es);
    } else {
      PlacedSorted(es[1..], e);
      PlacedMembers(es[1..], e);
      CompareReversed(es[0].name, e.name);
      forall x | x in Placed(es[1..], e) ensures Compare(es[0].name, x.name) < 0 {
        if x != e {
          var j :| 0 <= j < |es| - 1 && es[1..][j] == x;
          assert es[j + 1] == x;
        }
      }
      SortedFront(es[0], Placed(es[1..], e));
    }
  }

  /** Sorting what is already sorted changes nothing. */
  lemma {:induction false} SortSorted(es: seq<Entry>)
    requires StrictlySorted(es)
    ensures Sort(es) == es
  {
    if es != [] {
      var init, e := es[..|es| - 1], es[|es| - 1];
      SortSorted(init);
      forall i | 0 <= i < |init| ensures Compare(init[i].name, e.name) < 0 {
        assert init[i] == es[i];
      }
      PlacedLast(init, e);
      assert es == init + [e];
    }
  }

  lemma {:induction false} PlacedLast(es: seq<Entry>, e: Entry)
    requires forall i :: 0 <= i < |es| ==> Compare(es[i].name, e.name) < 0
    ensures Placed(es, e) == es + [e]
  {
    if es != [] {
      CompareReversed(es[0].name, e.name);
      PlacedLast(es[1..], e);
      assert es == [es[0]] + es[1..];
    }
  }

  // ----- Records on disk -----

  function RecordLength(nameLength: nat): (n: nat)
    ensures n % 4 == 0 && n >= DENTRY_SIZE + nameLength + 1
  {
    (DENTRY_SIZE + nameLength + 1 + 3) / 4 * 4
  }

  function Record(e: Entry): (bytes: seq<byte>)
    ensures |bytes| == RecordLength(|e.name|)
  {
    Encode(e.inodeId, 4) + Encode(RecordLength(|e.name|), 2) + Encode(|e.name|, 2) + e.name
    + Zeros(RecordLength(|e.name|) - DENTRY_SIZE - |e.name|)
  }

  function Serialize(es: seq<Entry>): (bytes: seq<byte>) {
    if es == [] then [] else Record(es[0]) + Serialize(es[1..])
  }

  /** The bytes before the terminator. */
  function CString(bytes: seq<byte>): (name: Name)
    ensures IsCString(name) && |name| <= |bytes|
  {
    if bytes == [] || bytes[0] == 0 then [] else [bytes[0]] + CString(bytes[1..])
  }

  /** The entries of a directory's bytes, record by record. */
  function Parse(bytes: seq<byte>): (es: seq<Entry>) {
    if |bytes| < DENTRY_SIZE then []
    else
      var recordLength := LittleEndian(bytes[4..6]);
      if recordLength == 0 then []
      else
        [Entry(LittleEndian(bytes[0..4]), CString(bytes[DENTRY_SIZE..]))]
        + (if recordLength >= |bytes| then [] else Parse(bytes[recordLength..]))
  }

  lemma {:induction false} CStringOf(name: Name, rest: seq<byte>)
    requires IsCString(name) && rest != [] && rest[0] == 0
    ensures CString(name + rest) == name
  {
    if name == [] {
      assert [] + rest == rest;
    } else {
      assert (name + rest)[1..] == name[1..] + rest;
      CStringOf(name[1..], rest);
      assert name == [name[0]] + name[1..];
    }
  }

  lemma RecordParts(e: Entry, rest: seq<byte>)
    requires EntryOk(e)
    ensures var bytes := Record(e) + rest;
            && LittleEndian(bytes[0..4]) == e.inodeId
            && LittleEndian(bytes[4..6]) == RecordLength(|e.name|)
            && CString(bytes[DENTRY_SIZE..]) == e.name
            && bytes[RecordLength(|e.name|)..] == rest
    ensures LittleEndian(Record(e)[6..8]) == |e.name| && Record(e)[8..8 + |e.name|] == e.name
    ensures forall i :: 8 + |e.name| <= i < |Record(e)| ==> Record(e)[i] == 0
    ensures |Record(e)| == RecordLength(|e.name|) && |Record(e)| % 4 == 0 && 9 <= |Record(e)| - |e.name| <= 12
  {
    var n := RecordLength(|e.name|);
    EncodeRoundTrip(|e.name|, 2);
    assert Record(e)[6..8] == Encode(|e.name|, 2);
    var bytes := Record(e) + rest;
    EncodeRoundTrip(e.inodeId, 4);
    EncodeRoundTrip(n, 2);
    assert bytes[0..4] == Encode(e.inodeId, 4);
    assert bytes[4..6] == Encode(n, 2);
    assert bytes[n..] == rest;
    var tail := Zeros(n - DENTRY_SIZE - |e.name|) + rest;
    assert bytes[DENTRY_SIZE..] == e.name + tail;
    CStringOf(e.name, tail);
  }

  /** Reading back what was written gives the same entries. */
  lemma {:induction false} ParseSerialized(es: seq<Entry>)
    requires EntriesOk(es)
    ensures Parse(Serialize(es)) == es
  {
    if es != [] {
      RecordParts(es[0], Serialize(es[1..]));
      ParseSerialized(es[1..]);
      assert es == [es[0]] + es[1..];
    }
  }

  // ----- The finite map -----

  ghost function Names(es: seq<Entry>): map<Name, nat> {
    if es == [] then map[]
    else Names(es[..|es| - 1])[es[|es| - 1].name := es[|es| - 1].inodeId]
  }

  predicate Has(es: seq<Entry>, name: Name) {
    exists i :: 0 <= i < |es| && es[i].name == name
  }

  lemma HasLast(es: seq<Entry>, name: Name)
    requires es != []
    ensures Has(es, name) <==> Has(es[..|es| - 1], name) || name == es[|es| - 1].name
  {
    var init := es[..|es| - 1];
    if Has(es, name) && name != es[|es| - 1].name {
      var i :| 0 <= i < |es| && es[i].name == name;
      assert init[i].name == name;
    }
    if Has(init, name) {
      var i :| 0 <= i < |init| && init[i].name == name;
      assert es[i].name == name;
    }
  }

  lemma {:induction false} NamesKeys(es: seq<Entry>, name: Name)
    requires Unique(es)
    ensures name in Names(es) <==> Has(es, name)
    ensures forall i :: 0 <= i < |es| && es[i].name == name ==> name in Names(es) && Names(es)[name] == es[i].inodeId
  {
    hide Has;
    if es != [] {
      NamesKeys(es[..|es| - 1], name);
      HasLast(es, name);
      forall i | 0 <= i < |es| && es[i].name == name ensures Names(es)[name] == es[i].inodeId {
        if i < |es| - 1 {
          assert es[..|es| - 1][i] == es[i];
        }
      }
    } else {
      assert !Has(es, name) by {
        HasNone(name);
      }
    }
  }

  lemma NamesAll(es: seq<Entry>)
    requires Unique(es)
    ensures forall i :: 0 <= i < |es| ==> es[i].name in Names(es) && Names(es)[es[i].name] == es[i].inodeId
    ensures forall name :: name in Names(es) ==> Has(es, name)
  {
    hide Names, Unique;
    forall i | 0 <= i < |es| ensures es[i].name in Names(es) && Names(es)[es[i].name] == es[i].inodeId {
      NamesKeys(es, es[i].name);
    }
    forall name | name in Names(es) ensures Has(es, name) {
      NamesKeys(es, name);
    }
  }

  lemma HasNone(name: Name)
    ensures !Has([], name)
  {
  }

  /** The map is determined by the entries, whatever their order. */
  lemma NamesAre(es: seq<Entry>, m: map<Name, nat>)
    requires Unique(es)
    requires forall i :: 0 <= i < |es| ==> es[i].name in m && m[es[i].name] == es[i].inodeId
    requires forall name :: name in m ==> Has(es, name)
    ensures Names(es) == m
  {
    hide Names, Unique;
    forall name ensures name in Names(es) <==> name in m {
      NamesKeys(es, name);
    }
    forall name | name in m ensures Names(es)[name] == m[name] {
      NamesKeys(es, name);
      assert Has(es, name);
    }
  }

  lemma {:induction false} SortMembers(es: seq<Entry>)
    ensures |Sort(es)| == |es|
    ensures forall x :: x in Sort(es) <==> x in es
  {
    if es != [] {
      SortMembers(es[..|es| - 1]);
      PlacedMembers(Sort(es[..|es| - 1]), es[|es| - 1]);
      assert es == es[..|es| - 1] + [es[|es| - 1]];
    }
  }

  /** Entries with distinct names are sorted strictly, and stay the same entries. */
  lemma {:induction false} SortSorts(es: seq<Entry>)
    requires Unique(es)
    ensures StrictlySorted(Sort(es))
  {
    if es != [] {
      var init, e := es[..|es| - 1], es[|es| - 1];
      SortSorts(init);
      SortMembers(init);
      forall x | x in Sort(init) ensures x.name != e.name {
        assert x in init;
        var i :| 0 <= i < |init| && init[i] == x;
        assert es[i] == x;
      }
      PlacedSorted(Sort(init), e);
    }
  }

  lemma MembersHave(es: seq<Entry>, fs: seq<Entry>)
    requires forall x :: x in fs <==> x in es
    ensures forall name :: Has(es, name) <==> Has(fs, name)
  {
    forall name ensures Has(es, name) <==> Has(fs, name) {
      if Has(es, name) {
        var i :| 0 <= i < |es| && es[i].name == name;
        assert es[i] in fs;
      }
      if Has(fs, name) {
        var i :| 0 <= i < |fs| && fs[i].name == name;
        assert fs[i] in es;
      }
    }
  }

  /** Sorting keeps the map. */
  lemma SortKeepsNames(es: seq<Entry>)
    requires Unique(es)
    ensures StrictlySorted(Sort(es)) && Names(Sort(es)) == Names(es)
    ensures EntriesOk(es) ==> EntriesOk(Sort(es))
  {
    SortSorts(es);
    SortMembers(es);
    SortedIsUnique(Sort(es));
    MembersHave(es, Sort(es));
    NamesAll(es);
    hide Names;
    forall i | 0 <= i < |Sort(es)|
      ensures Sort(es)[i].name in Names(es) && Names(es)[Sort(es)[i].name] == Sort(es)[i].inodeId
      ensures EntriesOk(es) ==> EntryOk(Sort(es)[i])
    {
      assert Sort(es)[i] in es;
    }
    NamesAre(Sort(es), Names(es));
  }

  lemma AddedNames(es: seq<Entry>, e: Entry)
    requires Unique(es) && !Has(es, e.name)
    ensures Unique(es + [e]) && Names(es + [e]) == Names(es)[e.name := e.inodeId]
  {
    var all := es + [e];
    assert Unique(all);
    NamesAll(es);
    hide Names;
    forall name | name in Names(es)[e.name := e.inodeId] ensures Has(all, name) {
      if name == e.name {
        assert all[|es|].name == name;
      } else {
        assert Has(es, name);
        var i :| 0 <= i < |es| && es[i].name == name;
        assert all[i].name == name;
      }
    }
    NamesAre(all, Names(es)[e.name := e.inodeId]);
  }

  function Without(es: seq<Entry>, k: nat): (rest: seq<Entry>)
    requires k < |es|
    ensures |rest| == |es| - 1
    ensures forall i :: 0 <= i < |rest| ==> rest[i] == es[if i < k then i else i + 1]
  {
    es[..k] + es[k + 1..]
  }

  lemma WithoutSorted(es: seq<Entry>, k: nat)
    requires StrictlySorted(es) && k < |es|
    ensures StrictlySorted(Without(es, k))
  {
    hide Compare, Without;
  }

  lemma RemovedNames(es: seq<Entry>, k: nat)
    requires Unique(es) && k < |es| && Unique(Without(es, k))
    ensures Names(Without(es, k)) == Names(es) - {es[k].name}
  {
    hide Names, Without, Unique;
    var rest := Without(es, k);
    forall name | name in Names(es) - {es[k].name} ensures Has(rest, name) {
      NamesKeys(es, name);
      var i :| 0 <= i < |es| && es[i].name == name;
      assert rest[if i < k then i else i - 1].name == name;
    }
    forall i | 0 <= i < |rest|
      ensures rest[i].name in Names(es) - {es[k].name} && (Names(es) - {es[k].name})[rest[i].name] == rest[i].inodeId
    {
      var j := if i < k then i else i + 1;
      NamesKeys(es, es[j].name);
      OnlyAt(es, k, j);
    }
    NamesAre(rest, Names(es) - {es[k].name});
  }

  lemma OnlyAt(es: seq<Entry>, k: nat, j: nat)
    requires Unique(es) && k < |es| && j < |es| && j != k
    ensures es[j].name != es[k].name
  {
  }

  /** Entry k replaced by one with the same name, or with a name not yet present. */
  lemma ReplacedNames(es: seq<Entry>, k: nat, e: Entry)
    requires Unique(es) && k < |es| && (e.name == es[k].name || !Has(es, e.name))
    ensures Unique(es[k := e])
    ensures Names(es[k := e]) == (Names(es) - {es[k].name})[e.name := e.inodeId]
  {
    var all, m := es[k := e], (Names(es) - {es[k].name})[e.name := e.inodeId];
    NamesAll(es);
    hide Names;
    forall i, j | 0 <= i < |all| && 0 <= j < |all| && all[i].name == all[j].name ensures i == j {
      assert i != k ==> all[i] == es[i];
      assert j != k ==> all[j] == es[j];
    }
    forall name | name in m ensures Has(all, name) {
      if name == e.name {
        assert all[k].name == name;
      } else {
        assert Has(es, name);
        var i :| 0 <= i < |es| && es[i].name == name;
        assert all[i].name == name;
      }
    }
    forall i | 0 <= i < |all| ensures all[i].name in m && m[all[i].name] == all[i].inodeId {
      if i != k {
        assert Has(es, all[i].name);
      }
    }
    NamesAre(all, m);
  }

  /** The entries of a directory that has no others. */
  function FirstNames(id: nat, parent: nat): map<Name, nat> {
    map[DOT := id, DOT_DOT := parent]
  }

  // ----- Searching -----

  /** The linear search of insert, remove and rename. */
  method FindName(es: seq<Entry>, name: Name) returns (index: int)
    ensures -1 <= index < |es|
    ensures index >= 0 ==> es[index].name == name && forall i :: 0 <= i < index ==> es[i].name != name
    ensures index == -1 <==> !Has(es, name)
  {
    for i := 0 to |es|
      invariant forall j :: 0 <= j < i ==> es[j].name != name
    {
      if es[i].name == name {
        return i;
      }
    }
    return -1;
  }

  /** bsearch over the sorted entries finds a name exactly when it is there. */
  method BinarySearch(es: seq<Entry>, name: Name) returns (index: int)
    requires StrictlySorted(es)
    ensures -1 <= index < |es|
    ensures index >= 0 ==> es[index].name == name
    ensures index == -1 <==> !Has(es, name)
  {
    var low, high := 0, |es|;
    while low < high
      invariant 0 <= low <= high <= |es|
      invariant forall i :: 0 <= i < low ==> es[i].name != name
      invariant forall i :: high <= i < |es| ==> es[i].name != name
    {
      var mid := (low + high) / 2;
      var c := Compare(name, es[mid].name);
      if c == 0 {
        return mid;
      }
      CompareReversed(name, es[mid].name);
      CompareReversed(es[mid].name, name);
      if c < 0 {
        forall i | mid <= i < |es| ensures es[i].name != name {
        }
        high := mid;
      } else {
        forall i | 0 <= i <= mid ensures es[i].name != name {
          CompareReversed(es[i].name, name);
        }
        low := mid + 1;
      }
    }
    return -1;
  }

  /** fs_dir_validate_name. */
  method ValidateName(name: Name) returns (ok: bool)
    requires IsCString(name)
    ensures ok <==> ValidName(name)
    ensures ok <==> 0 < |name| <= 255 && name != [46] && name != [46, 46] && 47 !in name && 92 !in name
  {
    if name == [] || name == DOT || name == DOT_DOT || |name| > MAX_FILENAME_LENGTH {
      return false;
    }
    for i := 0 to |name|
      invariant forall j :: 0 <= j < i ==> name[j] != 47 && name[j] != 92
    {
      if name[i] == 47 || name[i] == 92 {
        return false;
      }
    }
    return true;
  }

  lemma NamesFront(es: seq<Entry>)
    requires Unique(es) && es != []
    ensures var init, last := es[..|es| - 1], es[|es| - 1];
            Unique(init) && last.name !in Names(init) && Names(es) == Names(init)[last.name := last.inodeId]
  {
    var init := es[..|es| - 1];
    NamesKeys(init, es[|es| - 1].name);
  }

  lemma LastNamed(es: seq<Entry>)
    requires StrictlySorted(es) && es != []
    ensures var last := es[|es| - 1];
            && StrictlySorted(es[..|es| - 1]) && last.name in Names(es) && Names(es)[last.name] == last.inodeId
            && Names(es[..|es| - 1]) == Names(es) - {last.name}
            && forall name :: name in Names(es) ==> name == last.name || Compare(name, last.name) < 0
  {
    SortedIsUnique(es);
    hide Names, Compare, Unique;
    NamesFront(es);
    var init, last := es[..|es| - 1], es[|es| - 1];
    assert Names(init)[last.name := last.inodeId] - {last.name} == Names(init);
    forall name | name in Names(es) ensures name == last.name || Compare(name, last.name) < 0 {
      NamesKeys(es, name);
      var i :| 0 <= i < |es| && es[i].name == name;
    }
  }

  lemma NoNames(es: seq<Entry>)
    requires Unique(es)
    ensures Names(es) == map[] <==> es == []
  {
    if es != [] {
      hide Names;
      NamesKeys(es, es[0].name);
    }
  }

  /** Sorted entries with the same names are the same. */
  lemma {:induction false} SortedDetermined(a: seq<Entry>, b: seq<Entry>)
    requires StrictlySorted(a) && StrictlySorted(b) && Names(a) == Names(b)
    ensures a == b
  {
    hide Names, StrictlySorted, Compare, Unique;
    SortedIsUnique(a);
    SortedIsUnique(b);
    if a == [] || b == [] {
      NoNames(a);
      NoNames(b);
    } else {
      LastNamed(a);
      LastNamed(b);
      CompareReversed(a[|a| - 1].name, b[|b| - 1].name);
      SortedDetermined(a[..|a| - 1], b[..|b| - 1]);
      assert a == a[..|a| - 1] + [a[|a| - 1]] && b == b[..|b| - 1] + [b[|b| - 1]];
    }
  }

  // ----- Parsing, as a walk over the bytes -----

  ghost predicate Walk(bytes: seq<byte>, es: seq<Entry>, starts: seq<nat>) {
    && |starts| == |es| + 1
    && (forall i :: 0 <= i < |es| ==> RecordAt(bytes, es[i], starts[i], starts[i + 1]))
    && WalkEnds(bytes, starts[|es|])
  }

  ghost predicate RecordAt(bytes: seq<byte>, e: Entry, from: nat, to: nat) {
    && from + 8 <= |bytes| && from < to
    && bytes[from + 4] as int + 256 * bytes[from + 5] as int == to - from
    && e == Entry(LittleEndian(bytes[from..from + 4]), CString(bytes[from + 8..]))
  }

  ghost predicate WalkEnds(bytes: seq<byte>, at: nat) {
    at + 8 <= |bytes| ==> bytes[at + 4] == 0 && bytes[at + 5] == 0
  }

  lemma WalkMore(bytes: seq<byte>, e: Entry, es: seq<Entry>, from: nat, starts: seq<nat>)
    requires Walk(bytes, es, starts) && RecordAt(bytes, e, from, starts[0])
    ensures Walk(bytes, [e] + es, [from] + starts)
  {
    hide RecordAt, WalkEnds;
  }

  lemma {:induction false} WalkFrom(bytes: seq<byte>, from: nat) returns (starts: seq<nat>)
    requires from <= |bytes|
    ensures starts != [] && starts[0] == from && Walk(bytes, Parse(bytes[from..]), starts)
    decreases |bytes| - from
  {
    hide Parse, LittleEndian, CString;
    ParseOne(bytes, from);
    if from + 8 > |bytes| {
      return [from];
    }
    var n := bytes[from + 4] as int + 256 * bytes[from + 5] as int;
    if n == 0 {
      return [from];
    }
    var e := Entry(LittleEndian(bytes[from..from + 4]), CString(bytes[from + 8..]));
    if from + n >= |bytes| {
      WalkMore(bytes, e, [], from, [from + n]);
      return [from] + [from + n];
    }
    var rest := WalkFrom(bytes, from + n);
    WalkMore(bytes, e, Parse(bytes[from + n..]), from, rest);
    return [from] + rest;
  }

  /**
   The records of any bytes, valid or not: each starts where the one before it says it ends, has eight bytes of
   header at least, and says a length that is not zero. The walk stops at the first place where that fails.
   */
  lemma ParseWalk(bytes: seq<byte>) returns (starts: seq<nat>)
    ensures |starts| == |Parse(bytes)| + 1 && starts[0] == 0
    ensures forall i :: 0 <= i < |Parse(bytes)| ==>
              && starts[i] + 8 <= |bytes|
              && 0 < bytes[starts[i] + 4] as int + 256 * bytes[starts[i] + 5] as int == starts[i + 1] as int - starts[i] as int
              && Parse(bytes)[i] == Entry(LittleEndian(bytes[starts[i]..starts[i] + 4]), CString(bytes[starts[i] + 8..]))
    ensures var last := starts[|Parse(bytes)|];
            last + 8 <= |bytes| ==> bytes[last + 4] == 0 && bytes[last + 5] == 0
  {
    hide Parse, LittleEndian, CString;
    starts := WalkFrom(bytes, 0);
    assert bytes[0..] == bytes;
    var es := Parse(bytes);
    forall i | 0 <= i < |es|
      ensures starts[i] + 8 <= |bytes|
      ensures 0 < bytes[starts[i] + 4] as int + 256 * bytes[starts[i] + 5] as int == starts[i + 1] as int - starts[i] as int
      ensures es[i] == Entry(LittleEndian(bytes[starts[i]..starts[i] + 4]), CString(bytes[starts[i] + 8..]))
    {
      assert RecordAt(bytes, es[i], starts[i], starts[i + 1]);
    }
  }

  lemma ParseOne(bytes: seq<byte>, from: nat)
    requires from <= |bytes|
    ensures from + 8 > |bytes| ==> Parse(bytes[from..]) == []
    ensures from + 8 <= |bytes| ==>
              var n := bytes[from + 4] as int + 256 * bytes[from + 5] as int;
              var e := Entry(LittleEndian(bytes[from..from + 4]), CString(bytes[from + 8..]));
              && n >= 0
              && Parse(bytes[from..]) ==
                 if n == 0 then [] else [e] + (if from + n >= |bytes| then [] else Parse(bytes[from + n..]))
  {
    hide LittleEndian, CString, Parse;
    var here := bytes[from..];
    ParseHere(here);
    if |here| >= 8 {
      LengthBytes(bytes, from);
      assert here[0..4] == bytes[from..from + 4] && here[8..] == bytes[from + 8..];
      var n := LittleEndian(here[4..6]);
      if from + n < |bytes| {
        assert here[n..] == bytes[from + n..];
      }
    }
  }

  lemma ParseHere(bytes: seq<byte>)
    ensures |bytes| < 8 ==> Parse(bytes) == []
    ensures |bytes| >= 8 ==>
              var n := LittleEndian(bytes[4..6]);
              Parse(bytes) == if n == 0 then []
                              else [Entry(LittleEndian(bytes[0..4]), CString(bytes[8..]))]
                                   + (if n >= |bytes| then [] else Parse(bytes[n..]))
  {
    hide LittleEndian, CString;
  }

  lemma LengthBytes(bytes: seq<byte>, from: nat)
    requires from + 8 <= |bytes|
    ensures LittleEndian(bytes[from..][4..6]) == bytes[from + 4] as int + 256 * bytes[from + 5] as int
  {
    hide LittleEndian;
    DecodedBytes(bytes[from..][4..6]);
  }
}
