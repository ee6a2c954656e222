/** Which ROMs the device takes, said in terms of the cartridge header and of the partition
    (main/gb_storage.c:251-400): an undisturbed upload succeeds for exactly these. */
module RomUploads {
  import opened Bytes
  import opened Names
  import opened RomLayout
  import opened Storage

  // ----- The cartridge header.

  /** No mapper, MBC1, MBC2, MBC3 and MBC5, with and without RAM, battery, clock and rumble. */
  predicate KnownMapper(kind: byte) {
    kind == 0 || 1 <= kind <= 3 || 5 <= kind <= 6 || 0x0F <= kind <= 0x13 || 0x19 <= kind <= 0x1E
  }

  /** The size code c stands for 32 KiB doubled c times, or for 72, 80 or 96 banks of 16 KiB. */
  predicate Declares(code: byte, size: nat) {
    || (code <= 7 && size == 32768 * Pow2(code))
    || (code == 0x52 && size == 72 * 16384) || (code == 0x53 && size == 80 * 16384) || (code == 0x54 && size == 96 * 16384)
  }

  /** A ROM for a supported mapper that is as long as its header says and does not need a Game Boy Color. */
  predicate RomImage(image: seq<byte>) {
    |image| >= 0x150 && image[0x143] != 0xC0 && KnownMapper(image[0x147]) && Declares(image[0x148], |image|)
  }

  lemma DeclaredExactly(code: byte, size: nat)
    requires size > 0
    ensures DeclaredRomSize(code) == size <==> Declares(code, size)
  {
    PowersOfTwo();
    hide Pow2;
    assert code <= 7 ==> code == 0 || code == 1 || code == 2 || code == 3 || code == 4 || code == 5 || code == 6 || code == 7;
  }

  lemma PowersOfTwo()
    ensures Pow2(0) == 1 && Pow2(1) == 2 && Pow2(2) == 4 && Pow2(3) == 8 && Pow2(4) == 16 && Pow2(5) == 32 && Pow2(6) == 64 && Pow2(7) == 128
  {
    assert Pow2(4) == 16;
  }

  lemma HeaderAcceptedExactlyWhen(image: seq<byte>)
    requires |image| >= 0x150
    ensures HeaderAccepted(image) <==> RomImage(image)
  {
    DeclaredExactly(image[0x148], |image|);
    hide DeclaredRomSize, Declares;
  }

  lemma RomImageSize(image: seq<byte>)
    requires RomImage(image)
    ensures 32768 <= |image| && |image| % 16384 == 0
  {
    PowersOfTwo();
    hide Pow2;
    var code := image[0x148];
    assert code <= 7 ==> code == 0 || code == 1 || code == 2 || code == 3 || code == 4 || code == 5 || code == 6 || code == 7;
  }

  // ----- The partition.

  /** So many bytes are free at this address: behind the first sector, in front of the last two, and in no
      catalogued ROM. */
  predicate FreeAt(s: State, at: int, size: nat) {
    && 4096 <= at && at + size <= |s.flash.bytes| - 8192
    && forall i | 0 <= i < |s.ram.entries| ::
         at + size <= s.ram.entries[i].offset || s.ram.entries[i].offset + s.ram.entries[i].size <= at
  }

  /** There is a row, a new name that can be typed, and a place. */
  ghost predicate HasPlace(s: State, name: CString, size: nat) {
    && |s.ram.entries| < 16
    && (exists cps :: EncodeName(cps) == Some(name)) && (forall i | 0 <= i < |s.ram.entries| :: s.ram.entries[i].name != name)
    && exists at :: FreeAt(s, at, size)
  }

  lemma FreeIsFeasible(s: State, at: int, size: nat)
    requires size > 0 && forall i | 0 <= i < |s.ram.entries| :: s.ram.entries[i].size > 0
    ensures FreeAt(s, at, size) <==> Feasible(s.ram.entries, s.flash.End(), at, size)
  {
  }

  /** In multiples of a bank, a ROM is let in exactly when the catalogue can be changed and has a place for it:
      the limit on the sum of all sizes never matters. */
  lemma AdmittedExactlyWhen(s: State, name: CString, size: nat)
    requires Inv(s) && size >= 32768 && size % 16384 == 0
    ensures UploadAdmitted(s, name, size) <==> Usable(s.ram) && HasPlace(s, name, size)
  {
    var es, end := s.ram.entries, s.flash.End();
    if Usable(s.ram) {
      SelectedValid(s.flash);
      assert EntriesValid(es, end);
      forall i | 0 <= i < |es| ensures es[i].size > 0 {
        assert EntryShape(es[i], end);
      }
      ValidExactlyWhenEncodable(name);
      FirstFitIsLowest(es, end, size, SECTOR);
      forall at ensures FreeAt(s, at, size) <==> Feasible(es, end, at, size) {
        FreeIsFeasible(s, at, size);
      }
      hide FreeAt, Feasible, EntriesValid, NameValid, EncodeName, FirstFit;
      if exists at :: FreeAt(s, at, size) {
        var at :| FreeAt(s, at, size);
        QuotaCoversEveryGap(es, |s.flash.bytes|, at, size);
      }
    }
  }

  /** An upload in which no call fails, however the reader cuts the ROM into pieces of up to 1024 bytes,
      succeeds exactly for ROM images that have a place; and then the catalogue has one more row, which names
      the place where the ROM stands and the ROM itself. */
  lemma UploadSucceedsExactlyWhen(s: State, name: CString, t: Transfer)
    requires Inv(s) && t.eraseOk && t.hashStarts && t.hashFinishes
    requires forall k | 0 <= k < |t.chunks| :: 0 < |t.chunks[k]| <= 1024 && t.writeOk(k) && t.hashUpdates(k)
    ensures var image := Joined(t.chunks);
      var out := UploadSpec(s, name, |image|, Received(t, |image|), CLEAN_PUBLISH);
      && (out.ok <==> Usable(s.ram) && RomImage(image) && HasPlace(s, name, |image|))
      && (out.ok ==> Usable(out.state.ram) && exists at ::
            && FreeAt(s, at, |image|) && at % 4096 == 0 && at + |image| < 0x1_0000_0000
            && out.state.ram.entries == s.ram.entries + [RomEntry(name, at, |image|, Sha256(image))]
            && out.state.flash.bytes[at..at + |image|] == image)
  {
    var image := Joined(t.chunks);
    UndisturbedIsReceived(t);
    hide Joined, Received, PublishSpec;
    if |image| >= 0x150 {
      HeaderAcceptedExactlyWhen(image);
      if RomImage(image) {
        RomImageSize(image);
        AdmittedExactlyWhen(s, name, |image|);
      }
    }
    if UploadAdmitted(s, name, |image|) {
      UploadTakes(s, name, image);
    }
  }

  lemma UploadTakes(s: State, name: CString, image: seq<byte>)
    requires Inv(s) && UploadAdmitted(s, name, |image|)
    ensures var out := UploadSpec(s, name, |image|, Streamed(image), CLEAN_PUBLISH);
      && (out.ok <==> HeaderAccepted(image))
      && (out.ok ==> Usable(out.state.ram) && exists at ::
            && FreeAt(s, at, |image|) && at % 4096 == 0 && at + |image| < 0x1_0000_0000
            && out.state.ram.entries == s.ram.entries + [RomEntry(name, at, |image|, Sha256(image))]
            && out.state.flash.bytes[at..at + |image|] == image)
  {
    hide HeaderAccepted, NameValid;
    SelectedValid(s.flash);
    UploadTarget(s, name, |image|);
    var es, end := s.ram.entries, s.flash.End();
    var at := FirstFit(es, end, |image|);
    forall i | 0 <= i < |es| ensures es[i].size > 0 {
      assert EntryShape(es[i], end);
    }
    FreeIsFeasible(s, at, |image|);
    if HeaderAccepted(image) {
      var entry := RomEntry(name, at, |image|, Sha256(image));
      assert EntryShape(entry, end);
      var before := s.(flash := Rewritten(s.flash, at, image));
      CleanPublish(before, es + [entry]);
      RegionHolds(s.flash.bytes, at, image);
    }
    hide FreeAt, Feasible;
  }
}
