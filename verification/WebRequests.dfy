/** What the delete and rename requests of the management page do when nothing fails (main/gb_web.c): the guarantees
    about faults are not kept by refusing. */
module WebRequests {
  import opened Bytes
  import opened Names
  import opened RomLayout
  import opened Storage
  import opened SaveFiles
  import opened Web
  import Saves

  /** A request with the token that the page shows for this row now, and no call that fails. */
  function Deletion(s: System, index: nat): DeletePost {
    DeletePost(true, TokenSpec(s.storage.ram, index), {}, CLEAN_PUBLISH, Removal(true, true))
  }

  function Renaming(s: System, index: nat, name: CString): RenamePost {
    RenamePost(true, TokenSpec(s.storage.ram, index), {}, Some(name), CLEAN_PUBLISH)
  }

  /** Another game is the same ROM. */
  predicate TwiceThere(s: System, sha: Digest -> Hash, index: nat)
    requires index < |s.storage.ram.entries|
  {
    var es := s.storage.ram.entries;
    exists i | 0 <= i < |es| && i != index :: sha(es[i].digest) == sha(es[index].digest)
  }

  /** What is left of the save files. */
  lemma FilesLeft(files: Files, hash: Hash)
    ensures var left := RemovedCopies(files, hash, Removal(true, true));
      && PairOf(left, hash) == Saves.Pair(None, None)
      && (forall n :: n in left <==> n in files && n != SavePath(hash, 'a') && n != SavePath(hash, 'b'))
      && forall n | n in left :: left[n] == files[n]
  {
    hide SavePath;
  }

  lemma DeletionReplies(s: System, sha: Digest -> Hash, index: nat)
    requires Usable(s.storage.ram) && s.ready && index < |s.storage.ram.entries|
    ensures var out := DeleteSpec(s.storage, index, CLEAN_PUBLISH);
      var r, hash := DeleteReply(s, sha, Deletion(s, index)), sha(s.storage.ram.entries[index].digest);
      out.ok ==>
        r == Reply(s.(storage := out.state, files := if TwiceThere(s, sha, index) then s.files else RemovedCopies(s.files, hash, Removal(true, true))), 200)
  {
    FilesLeft(s.files, sha(s.storage.ram.entries[index].digest));
    assert Shared(s.storage.ram.entries, index, sha) == TwiceThere(s, sha, index);
    hide DeleteSpec, RemovedCopies, PairOf, SavePath;
  }

  /** The row is deleted, the others stay in their order; the two save files of the game go with it, unless
      another row is the same ROM; and no other file is touched. */
  lemma DeletionDeletes(s: System, sha: Digest -> Hash, index: nat)
    requires Inv(s.storage) && Usable(s.storage.ram) && s.ready && index < |s.storage.ram.entries|
    ensures var r, es := DeleteReply(s, sha, Deletion(s, index)), s.storage.ram.entries;
      var hash := sha(es[index].digest);
      && r.status == 200
      && Installed(s) == es && Installed(r.system) == es[..index] + es[index + 1..] && Usable(r.system.storage.ram)
      && (forall n :: n in r.system.files <==>
            n in s.files && (TwiceThere(s, sha, index) || (n != SavePath(hash, 'a') && n != SavePath(hash, 'b'))))
      && (forall n | n in r.system.files :: r.system.files[n] == s.files[n])
  {
    hide DeleteSpec, Selected, Inv, TwiceThere, DeleteReply, Deletion, RemovedCopies, SavePath;
    var es := s.storage.ram.entries;
    DeleteRefusedOnlyFor(s.storage, index);
    DeletedIsGone(s.storage, index, CLEAN_PUBLISH);
    DeletionReplies(s, sha, index);
    DeletionLeavesUsable(s.storage, index);
    FilesLeft(s.files, sha(es[index].digest));
    var found := Selected(DeleteSpec(s.storage, index, CLEAN_PUBLISH).state.flash).entries;
    assert found == es[..index] + es[index + 1..];
  }

  lemma DeletionLeavesUsable(s: State, index: nat)
    requires Inv(s)
    ensures DeleteSpec(s, index, CLEAN_PUBLISH).ok ==> Usable(DeleteSpec(s, index, CLEAN_PUBLISH).state.ram)
  {
    StepIsAtomic(s, Event.Delete(index, CLEAN_PUBLISH));
    hide DeleteSpec, Inv;
  }

  /** The row gets the name, if it is a valid name that no other row has; otherwise the request is refused and
      nothing changes. No file is touched. */
  lemma RenamingRenames(s: System, index: nat, name: CString)
    requires Inv(s.storage) && Usable(s.storage.ram) && index < |s.storage.ram.entries|
    ensures var r, es := RenameReply(s, Renaming(s, index, name)), s.storage.ram.entries;
      && r.system.files == s.files
      && if NameValid(name) && forall i | 0 <= i < |es| && i != index :: es[i].name != name
         then r.status == 200 && Usable(r.system.storage.ram) && Installed(r.system) == es[index := es[index].(name := name)]
         else r == Reply(s, 400)
  {
    var es := s.storage.ram.entries;
    RefusedOnlyFor(s.storage, index, name, 0, Transfer([], true, _ => true, _ => 0, true, _ => true, true));
    StepIsAtomic(s.storage, Event.Rename(index, name, CLEAN_PUBLISH));
    if RenameSpec(s.storage, index, name, CLEAN_PUBLISH).ok {
      RenamedIsFound(s.storage, index, name, CLEAN_PUBLISH);
    }
    hide PublishSpec, Selected, NameValid;
  }

  /** What a refused request is told; it changes nothing. */
  lemma RefusalsSay(s: System, sha: Digest -> Hash, post: DeletePost)
    ensures !post.sameOrigin ==> DeleteReply(s, sha, post) == Reply(s, 403)
    ensures post.sameOrigin && post.token.None? ==> DeleteReply(s, sha, post) == Reply(s, 400)
    ensures post.sameOrigin && post.token.Some? && s.storage.ram.needsReload ==> DeleteReply(s, sha, post) == Reply(s, 503)
    ensures post.sameOrigin && post.token.Some? && !s.storage.ram.needsReload
            && (forall row :: post.token != TokenSpec(s.storage.ram, row) || row in post.unhashed) ==>
              DeleteReply(s, sha, post) == Reply(s, 409)
    ensures DeleteReply(s, sha, post).status in {400, 403, 409} ==> DeleteReply(s, sha, post).system == s
  {
    hide DeleteSpec;
  }

  /** What a request is told that reached the catalogue, under any fault: 200 if the row is gone and so are the save
      files that go with it, 503 if it is not known whether the row is gone, and 500 if the row is known to stay or
      a save file is left. */
  lemma DeletionTold(s: System, sha: Digest -> Hash, post: DeletePost)
    requires Inv(s.storage) && DeletesRow(s, post)
    requires s.ready || TwiceThere(s, sha, post.token.value.row)
    ensures var r, es, row := DeleteReply(s, sha, post), s.storage.ram.entries, post.token.value.row;
      var left := PairOf(r.system.files, sha(es[row].digest)) != Saves.Pair(None, None);
      && r.status in {200, 500, 503}
      && (r.status == 503 <==> r.system.storage.ram.needsReload)
      && (r.status == 200 ==> Installed(r.system) == Removed(es, row) && (TwiceThere(s, sha, row) || !left))
      && (r.status == 500 && Installed(r.system) == Installed(s) ==> r.system.storage.ram == s.storage.ram && r.system.files == s.files)
      && (r.status == 500 && Installed(r.system) != Installed(s) ==> Installed(r.system) == Removed(es, row) && left)
  {
    var es, row := s.storage.ram.entries, post.token.value.row;
    StepIsAtomic(s.storage, Event.Delete(row, post.fate));
    assert Shared(es, row, sha) == TwiceThere(s, sha, row);
    CommitIsUsable(s.storage, row, post.fate);
    hide PublishSpec, Selected, PairOf, RemovedCopies;
  }

  /** And a renaming: 200 if the row has the name, 503 if it is not known whether it has, and 400 if it has not; before
      that the refusals of a deletion, and 400 without a name. */
  lemma RenamingTold(s: System, post: RenamePost)
    requires Inv(s.storage)
    ensures var r := RenameReply(s, post);
      if RenamesRow(s, post) then
        var row, name := post.token.value.row, post.name.value;
        && r.status in {200, 400, 503} && r.system.files == s.files
        && (r.status == 503 <==> r.system.storage.ram.needsReload)
        && (r.status == 200 ==> Usable(r.system.storage.ram) && |Installed(r.system)| > row && Installed(r.system)[row].name == name)
        && (r.status == 400 ==> r.system.storage.ram == s.storage.ram && Installed(r.system) == Installed(s))
      else
        r == Reply(s, if !post.sameOrigin then 403 else if post.token.None? || post.name.None? then 400
                      else if s.storage.ram.needsReload then 503 else 409)
  {
    if RenamesRow(s, post) {
      var row, name := post.token.value.row, post.name.value;
      StepIsAtomic(s.storage, Event.Rename(row, name, post.fate));
      if RenameSpec(s.storage, row, name, post.fate).ok {
        RenamedIsFound(s.storage, row, name, post.fate);
      }
      RenameKeepsRam(s.storage, row, name, post.fate);
    }
    hide PublishSpec, Selected, NameValid;
  }

  lemma RenameKeepsRam(s: State, row: nat, name: CString, x: PublishFate)
    requires Inv(s) && Usable(s.ram) && row < |s.ram.entries|
    ensures var out := RenameSpec(s, row, name, x);
      && (out.ok ==> !out.state.ram.needsReload)
      && (!out.ok && !out.state.ram.needsReload ==> out.state.ram == s.ram)
  {
    hide NameValid;
  }

  lemma CommitIsUsable(s: State, row: nat, x: PublishFate)
    requires Inv(s) && Usable(s.ram) && row < |s.ram.entries|
    ensures var out := DeleteSpec(s, row, x);
      && (out.ok ==> !out.state.ram.needsReload)
      && (!out.ok && !out.state.ram.needsReload ==> out.state.ram == s.ram)
  {
  }

  /** With the file system absent, a game whose save files would have to go stays. */
  lemma NotWithoutFiles(s: System, sha: Digest -> Hash, index: nat)
    requires Inv(s.storage) && Usable(s.storage.ram) && !s.ready && index < |s.storage.ram.entries|
    ensures DeleteReply(s, sha, Deletion(s, index)) == Reply(s, 503) <==> !TwiceThere(s, sha, index)
  {
    var es := s.storage.ram.entries;
    RefusedOnlyFor(s.storage, index, [], 0, Transfer([], true, _ => true, _ => 0, true, _ => true, true));
    assert Shared(es, index, sha) == TwiceThere(s, sha, index);
    hide DeleteSpec, Inv;
  }

  /** A sweep that gets to every file leaves exactly those that are no save files or belong to a listed game. */
  lemma SweepLeaves(s: System, sha: Digest -> Hash, n: string)
    requires s.ready && s.storage.ram.trusted
    ensures n in Pruned(s, sha, s.files.Keys).files <==>
      n in s.files && (!SaveName(n) || exists i | 0 <= i < |s.storage.ram.entries| :: n[..16] == Stem(sha(s.storage.ram.entries[i].digest)))
  {
    var hs := Hashes(s.storage.ram.entries, sha);
    if n in s.files && SaveName(n) {
      if i :| 0 <= i < |s.storage.ram.entries| && n[..16] == Stem(sha(s.storage.ram.entries[i].digest)) {
        assert n[..16] == Stem(hs[i]);
      }
    }
  }
}
