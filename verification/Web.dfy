/** Game management: the delete and rename handlers over the catalogue and the save files
    (main/gb_web.c), pruning after a restart (main/game_main.c), and saving during play, as one system. */
module Web {
  import opened Bytes
  import opened Names
  import opened RomLayout
  import opened Storage
  import opened SaveFiles
  import Saves

  type Hash = Saves.Hash

  /** The catalogue (flash and RAM), the save files, and whether their file system is mounted. */
  datatype System = System(storage: State, files: Files, ready: bool)

  function Hashes(es: seq<RomEntry>, sha: Digest -> Hash): (r: seq<Hash>)
    ensures |r| == |es|
  {
    seq<Hash>(|es|, i requires 0 <= i < |es| => sha(es[i].digest))
  }

  /** The catalogue that a clean load would find. */
  function Installed(s: System): seq<RomEntry> {
    if Selected(s.storage.flash).Loaded? then Selected(s.storage.flash).entries else []
  }

  // ----- The handlers as functions.

  /** A request, the rows whose tokens cannot be hashed while it is looked up, and the fates of its effects. */
  datatype DeletePost = DeletePost(sameOrigin: bool, token: Option<Token>, unhashed: set<nat>, fate: PublishFate, removal: Removal)

  datatype RenamePost = RenamePost(sameOrigin: bool, token: Option<Token>, unhashed: set<nat>, name: Option<CString>, fate: PublishFate)

  datatype Reply = Reply(system: System, status: int)

  predicate Shared(es: seq<RomEntry>, index: nat, sha: Digest -> Hash)
    requires index < |es|
  {
    exists i | 0 <= i < |es| :: i != index && sha(es[i].digest) == sha(es[index].digest)
  }

  function DeleteReply(s: System, sha: Digest -> Hash, post: DeletePost): Reply {
    if !post.sameOrigin then Reply(s, 403)
    else if post.token.None? then Reply(s, 400)
    else if s.storage.ram.needsReload then Reply(s, 503)
    else
      match Resolved(s.storage.ram, post.token.value, post.unhashed)
      case None => Reply(s, 409)
      case Some(index) => DeleteRow(s, sha, index, post)
  }

  function DeleteRow(s: System, sha: Digest -> Hash, index: nat, post: DeletePost): Reply
    requires index < |s.storage.ram.entries|
  {
    var es := s.storage.ram.entries;
    var hash := sha(es[index].digest);
    if !Shared(es, index, sha) && !s.ready then Reply(s, 503)
    else
      var out := DeleteSpec(s.storage, index, post.fate);
      if !out.ok then Reply(s.(storage := out.state), if out.state.ram.needsReload then 503 else 500)
      else if Shared(es, index, sha) then Reply(s.(storage := out.state), 200)
      else
        var files := RemovedCopies(s.files, hash, post.removal);
        Reply(s.(storage := out.state, files := files), if PairOf(files, hash) == Saves.Pair(None, None) then 200 else 500)
  }

  function RenameReply(s: System, post: RenamePost): Reply {
    if !post.sameOrigin then Reply(s, 403)
    else if post.token.None? || post.name.None? then Reply(s, 400)
    else if s.storage.ram.needsReload then Reply(s, 503)
    else
      match Resolved(s.storage.ram, post.token.value, post.unhashed)
      case None => Reply(s, 409)
      case Some(index) =>
        var out := RenameSpec(s.storage, index, post.name.value, post.fate);
        Reply(s.(storage := out.state), if out.ok then 200 else if out.state.ram.needsReload then 503 else 400)
  }

  // ----- Everything that happens to the system.

  /** Device covers power cycles, catalogue loads, uploads; Prune names the files a sweep got to;
      Play is one attempt to save the game in that row; a power cut during an attempt or between the
      commit and the removals of a delete is an attempt or a removal that stopped early. */
  datatype Happening =
    | Device(event: Event)
    | Mount(works: bool)
    | Delete(deletion: DeletePost)
    | Rename(renaming: RenamePost)
    | Prune(names: set<string>)
    | Play(row: nat, attempt: Saves.Attempt)

  function Pruned(s: System, sha: Digest -> Hash, names: set<string>): System {
    if !s.ready || !s.storage.ram.trusted then s
    else s.(files := s.files - (set n | n in names && Orphan(n, Hashes(s.storage.ram.entries, sha))))
  }

  function Put(files: Files, name: string, file: Saves.File): Files {
    if file.Some? then files[name := file.value] else files
  }

  function PutPair(files: Files, hash: Hash, p: Saves.Pair): Files {
    Put(Put(files, SavePath(hash, 'a'), p.a), SavePath(hash, 'b'), p.b)
  }

  function Played(s: System, sha: Digest -> Hash, row: nat, x: Saves.Attempt): System {
    if !s.ready || !Usable(s.storage.ram) || row >= |s.storage.ram.entries| then s
    else
      var hash := sha(s.storage.ram.entries[row].digest);
      s.(files := PutPair(s.files, hash, Saves.WriteSpec(PairOf(s.files, hash), hash, x).pair))
  }

  function Next(s: System, sha: Digest -> Hash, h: Happening): System {
    match h
    case Device(e) => s.(storage := Step(s.storage, e).state, ready := s.ready && !e.Boot?)
    case Mount(works) => s.(ready := works)
    case Delete(post) => DeleteReply(s, sha, post).system
    case Rename(post) => RenameReply(s, post).system
    case Prune(names) => Pruned(s, sha, names)
    case Play(row, x) => Played(s, sha, row, x)
  }

  function After(s: System, sha: Digest -> Hash, hs: seq<Happening>): System
    decreases |hs|
  {
    if hs == [] then s else After(Next(s, sha, hs[0]), sha, hs[1..])
  }

  /** The catalogue operation that a happening comes to, if any. */
  function EventOf(s: System, h: Happening): seq<Event> {
    match h
    case Device(e) => [e]
    case Delete(post) =>
      if DeletesRow(s, post) then [Event.Delete(post.token.value.row, post.fate)] else []
    case Rename(post) =>
      if RenamesRow(s, post) then [Event.Rename(post.token.value.row, post.name.value, post.fate)] else []
    case _ => []
  }

  predicate DeletesRow(s: System, post: DeletePost) {
    post.sameOrigin && post.token.Some? && Resolved(s.storage.ram, post.token.value, post.unhashed).Some?
  }

  predicate RenamesRow(s: System, post: RenamePost) {
    post.sameOrigin && post.token.Some? && post.name.Some? && Resolved(s.storage.ram, post.token.value, post.unhashed).Some?
  }

  function Events(s: System, sha: Digest -> Hash, hs: seq<Happening>): seq<Event>
    decreases |hs|
  {
    if hs == [] then []
    else (if Next(s, sha, hs[0]).storage == s.storage then [] else EventOf(s, hs[0])) + Events(Next(s, sha, hs[0]), sha, hs[1..])
  }

  /** No load accepts a catalogue whose newest slot it could not hash. */
  predicate SoundHappening(s: System, h: Happening) {
    h.Device? ==> Sound(s.storage, h.event)
  }

  predicate SoundLife(s: System, sha: Digest -> Hash, hs: seq<Happening>)
    decreases |hs|
  {
    hs == [] || (SoundHappening(s, hs[0]) && SoundLife(Next(s, sha, hs[0]), sha, hs[1..]))
  }

  /** The handlers reach the catalogue only through its own operations. */
  lemma NextIsEvent(s: System, sha: Digest -> Hash, h: Happening)
    ensures var t := Next(s, sha, h).storage;
      t == s.storage || (|EventOf(s, h)| == 1 && t == Step(s.storage, EventOf(s, h)[0]).state)
    ensures SoundHappening(s, h) && |EventOf(s, h)| == 1 ==> Sound(s.storage, EventOf(s, h)[0])
  {
    hide PublishSpec, InitSpec, UploadSpec;
  }

  lemma NextKeepsInv(s: System, sha: Digest -> Hash, h: Happening)
    requires Inv(s.storage)
    ensures Inv(Next(s, sha, h).storage) <==> SoundHappening(s, h)
  {
    if h.Device? {
      StepIsAtomic(s.storage, h.event);
    } else {
      NextIsEvent(s, sha, h);
      hide Next, Step, Inv, Sound;
      if Next(s, sha, h).storage != s.storage {
        StepIsAtomic(s.storage, EventOf(s, h)[0]);
      }
    }
  }

  /** What happens to the catalogue over a run is a run of its own operations. */
  lemma {:induction false} AfterIsRun(s: System, sha: Digest -> Hash, hs: seq<Happening>)
    ensures After(s, sha, hs).storage == Run(s.storage, Events(s, sha, hs))
    ensures SoundLife(s, sha, hs) ==> SoundRun(s.storage, Events(s, sha, hs))
    decreases |hs|
  {
    hide Next, Step, EventOf, SoundHappening, Sound;
    if hs != [] {
      var t := Next(s, sha, hs[0]);
      NextIsEvent(s, sha, hs[0]);
      AfterIsRun(t, sha, hs[1..]);
      var rest := Events(t, sha, hs[1..]);
      if t.storage == s.storage {
        assert [] + rest == rest;
      } else {
        assert (EventOf(s, hs[0]) + rest)[1..] == rest;
      }
    }
  }

  // ----- Deleting.

  /** No other game shares the eight hash bytes of row index without being the same ROM. */
  predicate Alone(es: seq<RomEntry>, index: nat, sha: Digest -> Hash)
    requires index < |es|
  {
    forall i | 0 <= i < |es| :: sha(es[i].digest)[..8] == sha(es[index].digest)[..8] ==> sha(es[i].digest) == sha(es[index].digest)
  }

  /** A deletion that touches any save file has committed the catalogue without that row, by a token
      that is current, and touches only the two files of that row. */
  lemma DeleteTouches(s: System, sha: Digest -> Hash, post: DeletePost, name: string)
    requires Inv(s.storage) && name in s.files && name !in DeleteReply(s, sha, post).system.files
    ensures post.sameOrigin && post.token.Some? && Resolved(s.storage.ram, post.token.value, post.unhashed).Some?
    ensures var es, index := s.storage.ram.entries, post.token.value.row;
      && Installed(s) == es && Installed(DeleteReply(s, sha, post).system) == Removed(es, index)
      && !Shared(es, index, sha) && |name| >= 16 && name[..16] == Stem(sha(es[index].digest))
  {
    var index := post.token.value.row;
    StepIsAtomic(s.storage, Event.Delete(index, post.fate));
    hide Selected, PublishSpec;
  }

  lemma OwnedAfter(es: seq<RomEntry>, index: nat, sha: Digest -> Hash, name: string)
    requires index < |es| && |name| >= 16 && name[..16] == Stem(sha(es[index].digest)) && !Shared(es, index, sha)
    ensures Owned(name, Hashes(Removed(es, index), sha)) <==> !Alone(es, index, sha)
  {
    var rest := Removed(es, index);
    if Owned(name, Hashes(rest, sha)) {
      var i :| 0 <= i < |rest| && name[..16] == Stem(Hashes(rest, sha)[i]);
      SameStem(sha(es[index].digest), sha(rest[i].digest));
      assert rest[i] == es[if i < index then i else i + 1];
    }
    if !Alone(es, index, sha) {
      var i :| 0 <= i < |es| && sha(es[i].digest)[..8] == sha(es[index].digest)[..8] && sha(es[i].digest) != sha(es[index].digest);
      SameStem(sha(es[index].digest), sha(es[i].digest));
      assert rest[if i < index then i else i - 1] == es[i];
      assert Hashes(rest, sha)[if i < index then i else i - 1] == sha(es[i].digest);
    }
  }

  /** A file removed by a delete request belongs to no game that is still installed, exactly when the
      deleted game did not share its eight hash bytes with a different one. */
  lemma DeleteSparesInstalled(s: System, sha: Digest -> Hash, post: DeletePost, name: string)
    requires Inv(s.storage) && name in s.files && name !in DeleteReply(s, sha, post).system.files
    ensures post.token.Some? && post.token.value.row < |s.storage.ram.entries|
    ensures Owned(name, Hashes(Installed(DeleteReply(s, sha, post).system), sha))
       <==> !Alone(s.storage.ram.entries, post.token.value.row, sha)
  {
    DeleteTouches(s, sha, post, name);
    hide DeleteReply;
    OwnedAfter(s.storage.ram.entries, post.token.value.row, sha, name);
  }

  /** And then the other game's save is lost: both its files go with the deleted game. */
  lemma CollisionLosesSave(s: System, sha: Digest -> Hash, index: nat, other: nat)
    requires Inv(s.storage) && Usable(s.storage.ram) && s.ready
    requires index < |s.storage.ram.entries| && other < |s.storage.ram.entries|
    requires var es := s.storage.ram.entries;
      && !Shared(es, index, sha) && other != index
      && sha(es[other].digest)[..8] == sha(es[index].digest)[..8]
    ensures var es := s.storage.ram.entries;
      var r := DeleteReply(s, sha, DeletePost(true, TokenSpec(s.storage.ram, index), {}, CLEAN_PUBLISH, Removal(true, true)));
      && r.status == 200 && es[other] in Installed(r.system)
      && PairOf(r.system.files, sha(es[other].digest)) == Saves.Pair(None, None)
  {
    var es := s.storage.ram.entries;
    DeleteRefusedOnlyFor(s.storage, index);
    StepIsAtomic(s.storage, Event.Delete(index, CLEAN_PUBLISH));
    SameStem(sha(es[other].digest), sha(es[index].digest));
    hide PublishSpec, Selected;
    assert Removed(es, index)[if other < index then other else other - 1] == es[other];
  }

  /** A token handed out before any commit that reached the flash is refused and changes nothing,
      whatever happened since. */
  lemma {:induction false} StaleRequestsRefused(s: System, sha: Digest -> Hash, hs: seq<Happening>, index: nat, post: DeletePost, renaming: RenamePost)
    requires Inv(s.storage) && SoundLife(s, sha, hs) && Usable(s.storage.ram) && index < |s.storage.ram.entries|
    requires 0 < Commits(s.storage, Events(s, sha, hs)) < 0x1_0000_0000
    requires post.token == TokenSpec(s.storage.ram, index) == renaming.token
    ensures var t := After(s, sha, hs);
      var d, r := DeleteReply(t, sha, post), RenameReply(t, renaming);
      d.system == t == r.system && d.status in {403, 409, 503} && r.status in {400, 403, 409, 503}
  {
    AfterIsRun(s, sha, hs);
    StaleTokensNeverAct(s.storage, Events(s, sha, hs), index, post.unhashed);
    StaleTokensNeverAct(s.storage, Events(s, sha, hs), index, renaming.unhashed);
    hide Run, Commits, After, Events;
  }

  /** Unless the commit is known to have succeeded, every save file stays; so it does for a stale token. */
  lemma NoCommitNoRemoval(s: System, sha: Digest -> Hash, post: DeletePost)
    requires Inv(s.storage)
    ensures var r := DeleteReply(s, sha, post);
      r.system.files != s.files ==>
        Usable(r.system.storage.ram) && Selected(r.system.storage.flash) != Selected(s.storage.flash)
  {
    var r := DeleteReply(s, sha, post);
    if r.system.files != s.files {
      StepIsAtomic(s.storage, Event.Delete(post.token.value.row, post.fate));
      assert Removed(s.storage.ram.entries, post.token.value.row) != s.storage.ram.entries;
    }
  }

  /** A prune never touches a file of an installed game, collisions or not. */
  lemma PruneSparesInstalled(s: System, sha: Digest -> Hash, names: set<string>, name: string)
    requires Inv(s.storage) && name in s.files && name !in Pruned(s, sha, names).files
    ensures SaveName(name) && !Owned(name, Hashes(Installed(s), sha))
  {
  }

  /** Where the catalogue in RAM is not the one a load would select, it may: a load that cannot hash the
      newer slot trusts the older catalogue, and the sweep that follows removes the save of a game that
      only the newer one lists. */
  lemma StaleLoadSweepsSave(f: Flash, before: seq<RomEntry>, after: seq<RomEntry>, n: u32, sha: Digest -> Hash, files: Files, i: nat)
    requires EntriesValid(before, f.End()) && EntriesValid(after, f.End()) && i < |after|
    requires SavePath(sha(after[i].digest), 'a') in files
    requires forall j | 0 <= j < |before| :: sha(before[j].digest)[..8] != sha(after[i].digest)[..8]
    ensures var g := f.(slot0 := Record(DirectoryOf(n, before)), slot1 := Record(DirectoryOf(Wrap(n + 1), after)));
      var name := SavePath(sha(after[i].digest), 'a');
      var loaded := Next(System(State(g, COLD), files, true), sha, Device(Init(CLEAN_INIT.(slot1 := HashFailed))));
      var swept := Next(loaded, sha, Prune({name}));
      after[i] in Installed(swept) && name !in swept.files
  {
    var name, hs := SavePath(sha(after[i].digest), 'a'), Hashes(before, sha);
    LostHashLoadsOlder(f, before, after, n);
    PathsAreSaveNames(sha(after[i].digest));
    hide InitSpec, Selected, EntriesValid;
    if Owned(name, hs) {
      var j :| 0 <= j < |hs| && name[..16] == Stem(hs[j]);
      assert hs[j] == sha(before[j].digest);
      SameStem(sha(after[i].digest), hs[j]);
    }
  }

  // ----- Whole runs.

  predicate Spread(hs: seq<Hash>) {
    forall i, j | 0 <= i < |hs| && 0 <= j < |hs| :: hs[i][..8] == hs[j][..8] ==> hs[i] == hs[j]
  }

  /** The game with this hash is installed, and different installed games differ in the hash prefix. */
  predicate Kept(s: System, sha: Digest -> Hash, hash: Hash) {
    hash in Hashes(Installed(s), sha) && Spread(Hashes(Installed(s), sha))
  }

  predicate AlwaysKept(s: System, sha: Digest -> Hash, hs: seq<Happening>, hash: Hash)
    decreases |hs|
  {
    Kept(s, sha, hash) && (hs == [] || AlwaysKept(Next(s, sha, hs[0]), sha, hs[1..], hash))
  }

  /** The attempt, if this is one for the game with this hash. */
  function AttemptOf(s: System, sha: Digest -> Hash, h: Happening, hash: Hash): seq<Saves.Attempt> {
    if h.Play? && s.ready && Usable(s.storage.ram) && h.row < |s.storage.ram.entries|
      && sha(s.storage.ram.entries[h.row].digest) == hash
    then [h.attempt] else []
  }

  function Attempts(s: System, sha: Digest -> Hash, hs: seq<Happening>, hash: Hash): seq<Saves.Attempt>
    decreases |hs|
  {
    if hs == [] then [] else AttemptOf(s, sha, hs[0], hash) + Attempts(Next(s, sha, hs[0]), sha, hs[1..], hash)
  }

  lemma {:induction false} WrittenOnce(p: Saves.Pair, hash: Hash, x: Saves.Attempt)
    ensures Saves.Written(p, hash, [x]) == Saves.WriteSpec(p, hash, x).pair
  {
    hide Saves.WriteSpec;
    assert [x][..0] == [];
  }

  lemma {:induction false} WrittenConcat(p: Saves.Pair, hash: Hash, xs: seq<Saves.Attempt>, ys: seq<Saves.Attempt>)
    ensures Saves.Written(p, hash, xs + ys) == Saves.Written(Saves.Written(p, hash, xs), hash, ys)
  {
    hide Saves.WriteSpec;
    if ys == [] {
      assert xs + ys == xs;
    } else {
      var front := ys[..|ys| - 1];
      WrittenConcat(p, hash, xs, front);
      assert (xs + ys)[..|xs + ys| - 1] == xs + front;
    }
  }

  lemma PathOwned(hash: Hash, hs: seq<Hash>, copy: char)
    requires hash in hs
    ensures Owned(SavePath(hash, copy), hs)
  {
    assert SavePath(hash, copy)[..16] == Stem(hash);
  }

  /** Names of different stems are different names. */
  lemma PathsApart(g: Hash, h: Hash, c: char, d: char)
    requires g[..8] != h[..8]
    ensures SavePath(g, c) != SavePath(h, d)
  {
    SameStem(g, h);
    assert SavePath(g, c)[..16] == Stem(g) && SavePath(h, d)[..16] == Stem(h);
  }

  lemma DeleteKeepsPair(s: System, sha: Digest -> Hash, post: DeletePost, hash: Hash)
    requires Inv(s.storage) && Kept(s, sha, hash)
    requires hash in Hashes(Installed(DeleteReply(s, sha, post).system), sha)
    ensures PairOf(DeleteReply(s, sha, post).system.files, hash) == PairOf(s.files, hash)
  {
    var r := DeleteReply(s, sha, post);
    forall copy | copy == 'a' || copy == 'b'
      ensures Lookup(r.system.files, SavePath(hash, copy)) == Lookup(s.files, SavePath(hash, copy))
    {
      var name := SavePath(hash, copy);
      PathOwned(hash, Hashes(Installed(r.system), sha), copy);
      DeleteOnlyRemoves(s, sha, post);
      if name in s.files && name !in r.system.files {
        DeleteTouches(s, sha, post, name);
        DeleteSparesInstalled(s, sha, post, name);
        SpreadAlone(s.storage.ram.entries, sha, post.token.value.row);
      }
    }
  }

  lemma SpreadAlone(es: seq<RomEntry>, sha: Digest -> Hash, index: nat)
    requires index < |es| && Spread(Hashes(es, sha))
    ensures Alone(es, index, sha)
  {
    var hs := Hashes(es, sha);
    forall i | 0 <= i < |es| && sha(es[i].digest)[..8] == sha(es[index].digest)[..8]
      ensures sha(es[i].digest) == sha(es[index].digest)
    {
      assert hs[i] == sha(es[i].digest) && hs[index] == sha(es[index].digest);
    }
  }

  lemma DeleteOnlyRemoves(s: System, sha: Digest -> Hash, post: DeletePost)
    ensures forall n | n in DeleteReply(s, sha, post).system.files :: n in s.files && DeleteReply(s, sha, post).system.files[n] == s.files[n]
  {
    hide DeleteSpec;
  }

  lemma {:induction false} PlayTracksPair(s: System, sha: Digest -> Hash, row: nat, x: Saves.Attempt, hash: Hash)
    requires Inv(s.storage) && Kept(s, sha, hash)
    ensures PairOf(Played(s, sha, row, x).files, hash)
         == Saves.Written(PairOf(s.files, hash), hash, AttemptOf(s, sha, Play(row, x), hash))
  {
    hide Saves.WriteSpec;
    if s.ready && Usable(s.storage.ram) && row < |s.storage.ram.entries| {
      var es := s.storage.ram.entries;
      var hs := Hashes(es, sha);
      var g := sha(es[row].digest);
      assert hs[row] == g && hash in hs && Spread(hs) by { assert Installed(s) == es; }
      hide Inv, Installed;
      PathsAreSaveNames(g);
      var p := Saves.WriteSpec(PairOf(s.files, g), g, x).pair;
      if g == hash {
        WrittenOnce(PairOf(s.files, hash), hash, x);
        WriteOnlyAdds(PairOf(s.files, g), g, x);
        hide Saves.WriteSpec, SavePath;
      } else {
        var k :| 0 <= k < |hs| && hs[k] == hash;
        assert g[..8] != hash[..8];
        PathsApart(g, hash, 'a', 'a');
        PathsApart(g, hash, 'a', 'b');
        PathsApart(g, hash, 'b', 'a');
        PathsApart(g, hash, 'b', 'b');
        hide Saves.WriteSpec, SavePath;
      }
    }
  }

  lemma WriteOnlyAdds(p: Saves.Pair, hash: Hash, x: Saves.Attempt)
    ensures var q := Saves.WriteSpec(p, hash, x).pair; (p.a.Some? ==> q.a.Some?) && (p.b.Some? ==> q.b.Some?)
  {
  }

  lemma {:induction false} NextTracksPair(s: System, sha: Digest -> Hash, h: Happening, hash: Hash)
    requires Inv(s.storage) && Kept(s, sha, hash) && Kept(Next(s, sha, h), sha, hash)
    ensures PairOf(Next(s, sha, h).files, hash)
         == Saves.Written(PairOf(s.files, hash), hash, AttemptOf(s, sha, h, hash))
  {
    match h
    case Delete(post) => DeleteKeepsPair(s, sha, post, hash);
    case Prune(names) => PruneKeepsPair(s, sha, names, hash);
    case Play(row, x) => PlayTracksPair(s, sha, row, x, hash);
    case _ =>
      hide SavePath, Kept;
  }

  lemma PruneKeepsPair(s: System, sha: Digest -> Hash, names: set<string>, hash: Hash)
    requires Inv(s.storage) && Kept(s, sha, hash)
    ensures PairOf(Pruned(s, sha, names).files, hash) == PairOf(s.files, hash)
  {
    hide SavePath;
    if s.ready && s.storage.ram.trusted {
      PathOwned(hash, Hashes(s.storage.ram.entries, sha), 'a');
      PathOwned(hash, Hashes(s.storage.ram.entries, sha), 'b');
    }
  }

  /** As long as a game stays installed its two files are what its own save attempts made of them. */
  lemma {:induction false} RunTracksPair(s: System, sha: Digest -> Hash, hs: seq<Happening>, hash: Hash)
    requires Inv(s.storage) && SoundLife(s, sha, hs) && AlwaysKept(s, sha, hs, hash)
    ensures PairOf(After(s, sha, hs).files, hash)
         == Saves.Written(PairOf(s.files, hash), hash, Attempts(s, sha, hs, hash))
    decreases |hs|
  {
    hide Next, Kept, PairOf, AttemptOf, Inv, SoundHappening;
    if hs != [] {
      var t := Next(s, sha, hs[0]);
      NextKeepsInv(s, sha, hs[0]);
      assert AlwaysKept(t, sha, hs[1..], hash);
      assert Kept(t, sha, hash);
      NextTracksPair(s, sha, hs[0], hash);
      RunTracksPair(t, sha, hs[1..], hash);
      WrittenConcat(PairOf(s.files, hash), hash, AttemptOf(s, sha, hs[0], hash), Attempts(t, sha, hs[1..], hash));
    }
  }

  /** No installed game loses its save, over every run of play, uploads, deletions, failures, power
      cuts, restarts and pruning in which loads are sound and its own attempts careful: what a later
      load returns is the last confirmed save or a later attempted one. */
  lemma {:induction false} InstalledGameKeepsItsSave(s: System, sha: Digest -> Hash, hs: seq<Happening>, hash: Hash, size: u32)
    requires Inv(s.storage) && SoundLife(s, sha, hs) && AlwaysKept(s, sha, hs, hash)
    requires Saves.CarefulRun(PairOf(s.files, hash), hash, Attempts(s, sha, hs, hash))
    requires size < 0xFFFF_FF00 && Saves.InStep(PairOf(s.files, hash), hash, size)
    requires var xs := Attempts(s, sha, hs, hash); forall i | 0 <= i < |xs| :: |xs[i].contents.sram| == size
    ensures var p, xs := PairOf(s.files, hash), Attempts(s, sha, hs, hash);
      var later := Saves.LoadSpec(PairOf(After(s, sha, hs).files, hash), hash, size);
      && Saves.Recent(p, hash, size, xs, later)
      && (Saves.LoadSpec(p, hash, size).Loaded? ==> later.Loaded?)
  {
    RunTracksPair(s, sha, hs, hash);
    Saves.RunIsSafe(PairOf(s.files, hash), hash, size, Attempts(s, sha, hs, hash));
  }

  // ----- The handlers themselves.

  class Manager {
    const storage: GbStorage
    const saves: SaveStore
    const sha: Digest -> Hash

    constructor (storage: GbStorage, saves: SaveStore, sha: Digest -> Hash)
      ensures this.storage == storage && this.saves == saves && this.sha == sha
    {
      this.storage, this.saves, this.sha := storage, saves, sha;
    }

    function Current(): System
      reads storage, saves
    {
      System(storage.Current(), saves.files, saves.mounted)
    }

    method SharesSave(index: nat) returns (shared: bool)
      requires index < |storage.entries|
      ensures shared <==> Shared(storage.entries, index, sha)
    {
      shared := false;
      for i := 0 to |storage.entries|
        invariant shared <==> exists k | 0 <= k < i :: k != index && sha(storage.entries[k].digest) == sha(storage.entries[index].digest)
      {
        if i != index && sha(storage.entries[i].digest) == sha(storage.entries[index].digest) {
          shared := true;
        }
      }
    }

    /** delete_handler. */
    method DeleteHandler(post: DeletePost) returns (status: int)
      modifies storage, saves`files
      ensures Reply(Current(), status) == DeleteReply(old(Current()), sha, post)
    {
      if !post.sameOrigin {
        return 403;
      }
      if post.token.None? {
        return 400;
      }
      if storage.needsReload {
        return 503;
      }
      var row := storage.ResolveToken(post.token.value, post.unhashed);
      if row.None? {
        return 409;
      }
      var index := row.value;
      var hash := sha(storage.entries[index].digest);
      var shared := SharesSave(index);
      if !shared && !saves.mounted {
        return 503;
      }
      var deleted := storage.Delete(index, post.fate);
      if !deleted {
        return if storage.needsReload then 503 else 500;
      }
      if shared {
        return 200;
      }
      var cleaned := saves.Delete(hash, post.removal);
      status := if cleaned then 200 else 500;
    }

    /** rename_handler. */
    method RenameHandler(post: RenamePost) returns (status: int)
      modifies storage
      ensures Reply(Current(), status) == RenameReply(old(Current()), post)
    {
      if !post.sameOrigin {
        return 403;
      }
      if post.token.None? || post.name.None? {
        return 400;
      }
      if storage.needsReload {
        return 503;
      }
      var row := storage.ResolveToken(post.token.value, post.unhashed);
      if row.None? {
        return 409;
      }
      var renamed := storage.Rename(row.value, post.name.value, post.fate);
      if !renamed {
        return if storage.needsReload then 503 else 400;
      }
      status := 200;
    }

    /** The sweep at power-on and on entering game management: it is a Prune of the system, and if it
        reports success every remaining save file belongs to an installed game. */
    method PruneOrphans(x: Sweep) returns (ok: bool)
      requires x.ListsEverything()
      modifies saves`files
      ensures Current() == Pruned(old(Current()), sha, old(saves.files).Keys - saves.files.Keys)
      ensures ok ==> forall n | n in saves.files && SaveName(n) :: Owned(n, Hashes(storage.entries, sha))
      ensures ok && Inv(storage.Current()) ==> Installed(Current()) == storage.entries
      ensures saves.mounted && storage.trusted && x.Flawless() ==> ok
    {
      ok := saves.PruneOrphans(storage.trusted, Hashes(storage.entries, sha), x);
      assert saves.files == Pruned(old(Current()), sha, old(saves.files).Keys - saves.files.Keys).files;
    }
  }
}
