/** Restorable MIME archives: writing, verifying and restoring a zip of messages whose file names
    are mangled message ids, so that different ids may share a file name. A zip read by name gives
    the last member of that name. */
module MailArchive {
  import opened Text

  type Bytes = seq<bv8>

  /** A message as the provider exports it. */
  datatype Message = Message(bytes: Bytes, labels: seq<string>)

  /** What is left to the platform: the digest, and which characters are letters or digits. */
  datatype Platform = Platform(sha256: Bytes -> string, isAlnum: char -> bool)

  ghost predicate CollisionFree(p: Platform) {
    forall a, b :: p.sha256(a) == p.sha256(b) ==> a == b
  }

  datatype Entry = Entry(id: string, file: string, size: nat, sha256: string, labels: seq<string>)

  datatype Member = Member(name: string, data: Bytes)

  /** The members in the order written, and the manifest's `messages`. */
  datatype Archive = Archive(members: seq<Member>, entries: seq<Entry>)

  // ---- file names ---------------------------------------------------------------------------

  predicate Kept(p: Platform, c: char) { p.isAlnum(c) || c in {'-', '_', '.'} }

  function SafeFilename(p: Platform, id: string): string {
    if id == "" then "message" else seq(|id|, i requires 0 <= i < |id| => if Kept(p, id[i]) then id[i] else '_')
  }

  function FileOf(p: Platform, id: string): string { "messages/" + SafeFilename(p, id) + ".eml" }

  /** Ids the mangling leaves alone. */
  predicate PlainId(p: Platform, id: string) {
    id != "" && forall c :: c in id ==> Kept(p, c)
  }

  lemma FileNamesAgree(p: Platform, a: string, b: string)
    ensures FileOf(p, a) == FileOf(p, b) <==> SafeFilename(p, a) == SafeFilename(p, b)
  {
    var n := |"messages/"|;
    assert FileOf(p, a)[n..|FileOf(p, a)| - 4] == SafeFilename(p, a);
    assert FileOf(p, b)[n..|FileOf(p, b)| - 4] == SafeFilename(p, b);
  }

  /** Ids kept unchanged have their own file. */
  lemma PlainIdsAreApart(p: Platform, a: string, b: string)
    requires PlainId(p, a) && PlainId(p, b)
    ensures FileOf(p, a) == FileOf(p, b) <==> a == b
  {
    FileNamesAgree(p, a, b);
    assert SafeFilename(p, a) == a;
    assert SafeFilename(p, b) == b;
  }

  // ---- creating -----------------------------------------------------------------------------

  function EntryOf(p: Platform, id: string, m: Message): Entry {
    Entry(id, FileOf(p, id), |m.bytes|, p.sha256(m.bytes), m.labels)
  }

  /** The archive of these ids: one member and one entry each, in order, from what the mailbox holds. */
  function ArchiveOf(p: Platform, mailbox: map<string, Message>, ids: seq<string>): Archive
    requires forall id :: id in ids ==> id in mailbox
  {
    Archive(seq(|ids|, i requires 0 <= i < |ids| => Member(FileOf(p, ids[i]), mailbox[ids[i]].bytes)),
            seq(|ids|, i requires 0 <= i < |ids| => EntryOf(p, ids[i], mailbox[ids[i]])))
  }

  lemma ArchiveSnoc(p: Platform, mailbox: map<string, Message>, ids: seq<string>, id: string)
    requires AllPresent(mailbox, ids) && id in mailbox
    ensures AllPresent(mailbox, ids + [id])
    ensures var before := ArchiveOf(p, mailbox, ids);
            ArchiveOf(p, mailbox, ids + [id])
            == Archive(before.members + [Member(FileOf(p, id), mailbox[id].bytes)],
                       before.entries + [EntryOf(p, id, mailbox[id])])
  {
  }

  predicate AllPresent(mailbox: map<string, Message>, ids: seq<string>) {
    forall id :: id in ids ==> id in mailbox
  }

  /** Export each message in turn; a message that cannot be exported fails the whole archive. */
  method CreateArchive(p: Platform, mailbox: map<string, Message>, ids: seq<string>)
    returns (archive: Option<Archive>, totalBytes: nat)
    ensures archive.Some? <==> AllPresent(mailbox, ids)
    ensures archive.Some? ==> archive.value == ArchiveOf(p, mailbox, ids)
    ensures archive.Some? ==> totalBytes == TotalBytes(archive.value.entries)
  {
    var members: seq<Member> := [];
    var entries: seq<Entry> := [];
    totalBytes := 0;
    for i := 0 to |ids|
      invariant AllPresent(mailbox, ids[..i])
      invariant Archive(members, entries) == ArchiveOf(p, mailbox, ids[..i])
      invariant totalBytes == TotalBytes(entries)
    {
      if ids[i] !in mailbox { return None, totalBytes; }
      var m := mailbox[ids[i]];
      assert ids[..i + 1] == ids[..i] + [ids[i]];
      ArchiveSnoc(p, mailbox, ids[..i], ids[i]);
      members := members + [Member(FileOf(p, ids[i]), m.bytes)];
      assert (entries + [EntryOf(p, ids[i], m)])[..i] == entries;
      entries := entries + [EntryOf(p, ids[i], m)];
      totalBytes := totalBytes + |m.bytes|;
    }
    assert ids[..|ids|] == ids;
    archive := Some(Archive(members, entries));
  }

  function TotalBytes(entries: seq<Entry>): nat {
    if entries == [] then 0 else TotalBytes(entries[..|entries| - 1]) + entries[|entries| - 1].size
  }

  // ---- reading, verifying -------------------------------------------------------------------

  /** Reading a name gives the last member written under it. */
  function Read(members: seq<Member>, name: string): Option<Bytes> {
    if members == [] then None
    else if members[|members| - 1].name == name then Some(members[|members| - 1].data)
    else Read(members[..|members| - 1], name)
  }

  lemma {:induction false} ReadIsLast(members: seq<Member>, name: string)
    ensures Read(members, name).None? <==> forall i :: 0 <= i < |members| ==> members[i].name != name
    ensures Read(members, name).Some? ==>
      exists i :: && 0 <= i < |members| && members[i].name == name && members[i].data == Read(members, name).value
                  && forall j :: i < j < |members| ==> members[j].name != name
  {
    if members != [] {
      var n := |members| - 1;
      if members[n].name != name {
        ReadIsLast(members[..n], name);
        assert forall i :: 0 <= i < n ==> members[..n][i] == members[i];
      }
    }
  }

  predicate Intact(p: Platform, archive: Archive, e: Entry) {
    var data := Read(archive.members, e.file);
    data.Some? && p.sha256(data.value) == e.sha256
  }

  predicate Verified(p: Platform, archive: Archive) {
    forall i :: 0 <= i < |archive.entries| ==> Intact(p, archive, archive.entries[i])
  }

  method VerifyArchive(p: Platform, archive: Archive) returns (success: bool, totalMessages: nat)
    ensures success == Verified(p, archive)
    ensures totalMessages == if success then |archive.entries| else 0
  {
    for i := 0 to |archive.entries|
      invariant forall j :: 0 <= j < i ==> Intact(p, archive, archive.entries[j])
    {
      var entry := archive.entries[i];
      match Read(archive.members, entry.file) {
        case None => return false, 0;
        case Some(data) =>
          if p.sha256(data) != entry.sha256 { return false, 0; }
      }
    }
    return true, |archive.entries|;
  }

  /** In a written archive an entry is intact exactly when its own bytes are what its file name reads. */
  lemma IntactMeansSameBytes(p: Platform, mailbox: map<string, Message>, ids: seq<string>, i: nat)
    requires CollisionFree(p) && AllPresent(mailbox, ids) && i < |ids|
    ensures var archive := ArchiveOf(p, mailbox, ids);
            && Read(archive.members, archive.entries[i].file).Some?
            && (Intact(p, archive, archive.entries[i])
                <==> Read(archive.members, archive.entries[i].file) == Some(mailbox[ids[i]].bytes))
  {
    var archive := ArchiveOf(p, mailbox, ids);
    ReadIsLast(archive.members, archive.entries[i].file);
    assert archive.members[i].name == archive.entries[i].file;
  }

  /** Messages sharing a file name have equal bytes. */
  ghost predicate NamesakesAgree(p: Platform, mailbox: map<string, Message>, ids: seq<string>)
    requires AllPresent(mailbox, ids)
  {
    forall i, j :: 0 <= i < |ids| && 0 <= j < |ids| && FileOf(p, ids[i]) == FileOf(p, ids[j])
                   ==> mailbox[ids[i]].bytes == mailbox[ids[j]].bytes
  }

  /** Verification of a written archive succeeds exactly when all messages sharing a mangled file
      name have equal bytes. */
  lemma VerifiedIffNamesakesAgree(p: Platform, mailbox: map<string, Message>, ids: seq<string>)
    requires CollisionFree(p) && AllPresent(mailbox, ids)
    ensures Verified(p, ArchiveOf(p, mailbox, ids)) <==> NamesakesAgree(p, mailbox, ids)
  {
    var archive := ArchiveOf(p, mailbox, ids);
    forall i | 0 <= i < |ids|
      ensures Intact(p, archive, archive.entries[i]) <==>
              Read(archive.members, archive.entries[i].file) == Some(mailbox[ids[i]].bytes)
    {
      IntactMeansSameBytes(p, mailbox, ids, i);
    }
    if NamesakesAgree(p, mailbox, ids) {
      forall i | 0 <= i < |ids|
        ensures Intact(p, archive, archive.entries[i])
      {
        var _ := LastNamesake(p, mailbox, ids, i);
      }
    }
    if Verified(p, archive) {
      forall i, j | 0 <= i < |ids| && 0 <= j < |ids| && FileOf(p, ids[i]) == FileOf(p, ids[j])
        ensures mailbox[ids[i]].bytes == mailbox[ids[j]].bytes
      {
        assert Intact(p, archive, archive.entries[i]) && Intact(p, archive, archive.entries[j]);
      }
    }
  }

  lemma LastNamesake(p: Platform, mailbox: map<string, Message>, ids: seq<string>, i: nat) returns (last: nat)
    requires AllPresent(mailbox, ids) && i < |ids|
    ensures last < |ids| && FileOf(p, ids[last]) == FileOf(p, ids[i])
    ensures Read(ArchiveOf(p, mailbox, ids).members, FileOf(p, ids[i])) == Some(mailbox[ids[last]].bytes)
  {
    var members := ArchiveOf(p, mailbox, ids).members;
    ReadIsLast(members, FileOf(p, ids[i]));
    assert members[i].name == FileOf(p, ids[i]);
    last :| 0 <= last < |members| && members[last].name == FileOf(p, ids[i])
            && members[last].data == Read(members, FileOf(p, ids[i])).value;
  }

  /** With ids the mangling leaves alone, as provider ids made of letters, digits, '-', '_' and '.'
      are, a written archive always verifies, whatever the messages are and however often an id is
      repeated. */
  lemma PlainIdsAlwaysVerify(p: Platform, mailbox: map<string, Message>, ids: seq<string>)
    requires CollisionFree(p) && AllPresent(mailbox, ids)
    requires forall id :: id in ids ==> PlainId(p, id)
    ensures Verified(p, ArchiveOf(p, mailbox, ids))
  {
    VerifiedIffNamesakesAgree(p, mailbox, ids);
    forall i, j | 0 <= i < |ids| && 0 <= j < |ids| && FileOf(p, ids[i]) == FileOf(p, ids[j])
      ensures mailbox[ids[i]].bytes == mailbox[ids[j]].bytes
    {
      PlainIdsAreApart(p, ids[i], ids[j]);
    }
  }

  /** Verification is no formality: two ids that mangle to one name, with different contents. */
  lemma CollidingIdsFailVerification(p: Platform)
    requires CollisionFree(p) && !p.isAlnum('/') && !p.isAlnum('+')
    ensures var mailbox := map["a/b" := Message([1], []), "a+b" := Message([2], [])];
            !Verified(p, ArchiveOf(p, mailbox, ["a/b", "a+b"]))
  {
    var mailbox := map["a/b" := Message([1], []), "a+b" := Message([2], [])];
    var ids := ["a/b", "a+b"];
    VerifiedIffNamesakesAgree(p, mailbox, ids);
    assert SafeFilename(p, ids[0]) == SafeFilename(p, ids[1]);
    assert FileOf(p, ids[0]) == FileOf(p, ids[1]);
    assert mailbox[ids[0]].bytes[0] != mailbox[ids[1]].bytes[0];
  }

  /** An entry of a written archive names its message and states its labels and size. */
  lemma EntryStates(p: Platform, mailbox: map<string, Message>, ids: seq<string>, i: nat)
    requires AllPresent(mailbox, ids) && i < |ids|
    ensures var archive := ArchiveOf(p, mailbox, ids);
            && |archive.entries| == |archive.members| == |ids|
            && archive.entries[i].id == ids[i] && archive.entries[i].labels == mailbox[ids[i]].labels
            && archive.entries[i].size == |mailbox[ids[i]].bytes|
            && archive.members[i].name == archive.entries[i].file && archive.members[i].data == mailbox[ids[i]].bytes
  {
  }

  // ---- restoring ----------------------------------------------------------------------------

  /** One call of the provider's import. */
  datatype Import = Import(data: Bytes, labels: seq<string>)

  /** Gmail re-applies every archived label except TRASH and SPAM. */
  function RestoreLabels(labels: seq<string>): (kept: seq<string>) {
    FlatMap((l: string) => if l in {"TRASH", "SPAM"} then [] else [l], labels)
  }

  lemma {:induction false} RestoreLabelsKeepsTheRest(labels: seq<string>)
    ensures forall l :: l in RestoreLabels(labels) <==> l in labels && l != "TRASH" && l != "SPAM"
  {
    if labels != [] {
      var n := |labels| - 1;
      RestoreLabelsKeepsTheRest(labels[..n]);
      assert labels == labels[..n] + [labels[n]];
    }
  }

  function ImportOf(m: Message): Import { Import(m.bytes, RestoreLabels(m.labels)) }

  datatype Restored = Restored(imports: seq<Import>, restored: nat, failed: seq<string>)

  /** What restoring does, entry by entry; `accepts(i)` says whether the provider takes entry i. */
  function RestoreEntries(p: Platform, archive: Archive, accepts: nat -> bool, n: nat): Restored
    requires n <= |archive.entries|
  {
    if n == 0 then Restored([], 0, [])
    else
      var before := RestoreEntries(p, archive, accepts, n - 1);
      var e := archive.entries[n - 1];
      if Intact(p, archive, e) && accepts(n - 1) then
        Restored(before.imports + [Import(Read(archive.members, e.file).value, RestoreLabels(e.labels))],
                 before.restored + 1, before.failed)
      else before.(failed := before.failed + [e.id])
  }

  function Restore(p: Platform, archive: Archive, accepts: nat -> bool): Restored {
    RestoreEntries(p, archive, accepts, |archive.entries|)
  }

  method RestoreArchive(p: Platform, archive: Archive, accepts: nat -> bool)
    returns (imports: seq<Import>, restored: nat, failed: seq<string>)
    ensures Restored(imports, restored, failed) == Restore(p, archive, accepts)
  {
    imports, restored, failed := [], 0, [];
    for i := 0 to |archive.entries|
      invariant Restored(imports, restored, failed) == RestoreEntries(p, archive, accepts, i)
    {
      var entry := archive.entries[i];
      var data := Read(archive.members, entry.file);
      if data.Some? && p.sha256(data.value) == entry.sha256 && accepts(i) {
        imports := imports + [Import(data.value, RestoreLabels(entry.labels))];
        restored := restored + 1;
      } else {
        failed := failed + [entry.id];
      }
    }
  }

  /** What the mailbox would have to hold for these ids after a perfect restore. */
  function Exports(mailbox: map<string, Message>, ids: seq<string>): seq<Import>
    requires AllPresent(mailbox, ids)
  {
    seq(|ids|, i requires 0 <= i < |ids| => ImportOf(mailbox[ids[i]]))
  }

  function EntryImport(archive: Archive, i: nat): Import
    requires i < |archive.entries| && Read(archive.members, archive.entries[i].file).Some?
  {
    Import(Read(archive.members, archive.entries[i].file).value, RestoreLabels(archive.entries[i].labels))
  }

  /** Every entry is counted once; nothing is ever imported but exact exported messages of the
      archive's own ids; and there are no failures exactly when the archive verifies and the
      provider accepts every message, in which case exactly all of them are imported, in order. */
  lemma RestoreIsExact(p: Platform, mailbox: map<string, Message>, ids: seq<string>, accepts: nat -> bool)
    requires CollisionFree(p) && AllPresent(mailbox, ids)
    ensures var archive := ArchiveOf(p, mailbox, ids);
            var r := Restore(p, archive, accepts);
            && r.restored + |r.failed| == |ids|
            && r.restored == |r.imports|
            && (forall x :: x in r.imports ==> x in Exports(mailbox, ids))
            && (r.failed == [] <==> Verified(p, archive) && forall i: nat :: i < |ids| ==> accepts(i))
            && (r.failed == [] ==> r.imports == Exports(mailbox, ids))
  {
    var archive, expected := ArchiveOf(p, mailbox, ids), Exports(mailbox, ids);
    forall i: nat | i < |archive.entries| && Intact(p, archive, archive.entries[i])
      ensures EntryImport(archive, i) == expected[i]
    {
      IntactMeansSameBytes(p, mailbox, ids, i);
    }
    RestoreCounts(p, archive, accepts, |ids|);
    RestoreFollows(p, archive, expected, accepts, |ids|);
    assert expected[..|ids|] == expected;
  }

  /** The archive holds this message: an entry with its id and labels reads back its exact bytes. */
  ghost predicate Holds(p: Platform, archive: Archive, id: string, m: Message) {
    exists i :: 0 <= i < |archive.entries| && HoldsAt(p, archive, i, id, m)
  }

  predicate HoldsAt(p: Platform, archive: Archive, i: nat, id: string, m: Message)
    requires i < |archive.entries|
  {
    var e := archive.entries[i];
    e.id == id && e.labels == m.labels && Read(archive.members, e.file) == Some(m.bytes) && Intact(p, archive, e)
  }

  /** A verified archive holds every message it was made of. */
  lemma VerifiedArchiveHolds(p: Platform, mailbox: map<string, Message>, ids: seq<string>, id: string)
    requires CollisionFree(p) && AllPresent(mailbox, ids) && id in ids
    requires Verified(p, ArchiveOf(p, mailbox, ids))
    ensures Holds(p, ArchiveOf(p, mailbox, ids), id, mailbox[id])
  {
    var i :| 0 <= i < |ids| && ids[i] == id;
    IntactMeansSameBytes(p, mailbox, ids, i);
    assert HoldsAt(p, ArchiveOf(p, mailbox, ids), i, id, mailbox[id]);
  }

  /** Restoring a verified archive into an accepting mailbox fails nowhere, and a restore that
      fails nowhere has imported every message the archive holds. */
  lemma RestoreBringsBack(p: Platform, archive: Archive, accepts: nat -> bool)
    ensures Verified(p, archive) && (forall i: nat :: i < |archive.entries| ==> accepts(i))
            ==> Restore(p, archive, accepts).failed == []
    ensures Restore(p, archive, accepts).failed == [] ==>
              forall id, m :: Holds(p, archive, id, m) ==> ImportOf(m) in Restore(p, archive, accepts).imports
  {
    var n := |archive.entries|;
    var expected := seq(n, i requires 0 <= i < n =>
      if Intact(p, archive, archive.entries[i]) then EntryImport(archive, i) else Import([], []));
    RestoreFollows(p, archive, expected, accepts, n);
    if Restore(p, archive, accepts).failed == [] {
      forall id, m | Holds(p, archive, id, m)
        ensures ImportOf(m) in Restore(p, archive, accepts).imports
      {
        var i :| 0 <= i < n && HoldsAt(p, archive, i, id, m);
        assert expected[..n] == expected;
        assert ImportOf(m) == expected[i];
      }
    }
  }

  lemma {:induction false} RestoreCounts(p: Platform, archive: Archive, accepts: nat -> bool, n: nat)
    requires n <= |archive.entries|
    ensures var r := RestoreEntries(p, archive, accepts, n);
            r.restored + |r.failed| == n && r.restored == |r.imports|
  {
    if n > 0 { RestoreCounts(p, archive, accepts, n - 1); }
  }

  lemma {:induction false} RestoreFollows(p: Platform, archive: Archive, expected: seq<Import>, accepts: nat -> bool,
                                          n: nat)
    requires n <= |archive.entries| == |expected|
    requires forall i: nat :: i < |archive.entries| && Intact(p, archive, archive.entries[i])
                              ==> EntryImport(archive, i) == expected[i]
    ensures var r := RestoreEntries(p, archive, accepts, n);
            && (forall x :: x in r.imports ==> x in expected)
            && (r.failed == [] <==> forall i: nat :: i < n ==> Intact(p, archive, archive.entries[i]) && accepts(i))
            && (r.failed == [] ==> r.imports == expected[..n])
  {
    if n > 0 {
      RestoreFollows(p, archive, expected, accepts, n - 1);
      assert expected[..n] == expected[..n - 1] + [expected[n - 1]];
    }
  }
}
