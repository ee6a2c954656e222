/** The bytes of a ROM partition image, one by one (tools/pack_roms.py), and what its inspection accepts. */
module PackLayout {
  import opened Bytes
  import opened Names
  import opened RomLayout
  import opened Storage
  import opened PackRoms
  import RomUploads
  import Saves

  /** Four octets as a number, the least significant first. */
  function At4(image: seq<byte>, at: nat): nat
    requires at + 4 <= |image|
  {
    image[at] as int + 256 * (image[at + 1] as int) + 65536 * (image[at + 2] as int) + 16777216 * (image[at + 3] as int)
  }

  lemma FieldsAt(image: seq<byte>, i: nat)
    requires |image| >= 4096 && i < 16
    ensures OffsetField(image, i) == At4(image, 40 + 72 * i) && SizeField(image, i) == At4(image, 44 + 72 * i)
    ensures NameField(image, i) == image[8 + 72 * i..40 + 72 * i] && DigestField(image, i) == image[48 + 72 * i..80 + 72 * i]
  {
    var at := 40 + 72 * i;
    var o, s := image[at..at + 4], image[at + 4..at + 8];
    assert o[0] == image[at] && o[1] == image[at + 1] && o[2] == image[at + 2] && o[3] == image[at + 3];
    assert s[0] == image[at + 4] && s[1] == image[at + 5] && s[2] == image[at + 6] && s[3] == image[at + 7];
  }

  // ----- What is built.

  /** The built image octet by octet: FGBR, version 1, the count; for each ROM its name in 32 octets, where it stands,
      its size and its hash; nothing else in the first sector; and then the ROMs one after another. */
  lemma ImageOctets(items: seq<Source>, sha: seq<byte> -> Sum, i: nat)
    requires Acceptable(items) && i < |items|
    ensures var image, at := ImageFor(items, sha), 4096 + Total(items[..i]);
      && image[..8] == [0x46, 0x47, 0x42, 0x52, 1, 0, |items|, 0]
      && (exists name :: EncodeName(items[i].name) == Some(name) && |name| < 32
                         && image[8 + 72 * i..40 + 72 * i] == name + Zeros(32 - |name|))
      && At4(image, 40 + 72 * i) == at && At4(image, 44 + 72 * i) == |items[i].data|
      && image[48 + 72 * i..80 + 72 * i] == sha(items[i].data)
      && at + |items[i].data| <= |image| && image[at..at + |items[i].data|] == items[i].data
  {
    hide Acceptable, Total, ImageFor, NameField, OffsetField, SizeField, DigestField, EncodeName, Suitable;
    AcceptableParts(items);
    PackedRow(items, sha, i);
    PackedData(items, sha, i);
    FieldsAt(ImageFor(items, sha), i);
    FirstOctets(items, sha);
    assert Suitable(items) ==> EncodeName(items[i].name).Some? by {
      SuitableName(items, i);
    }
    assert EncodeName(items[i].name) == Some(Encoded(items[i].name));
  }

  lemma SuitableName(items: seq<Source>, i: nat)
    requires i < |items|
    ensures Suitable(items) ==> EncodeName(items[i].name).Some?
  {
    hide EncodeName;
  }

  lemma FirstOctets(items: seq<Source>, sha: seq<byte> -> Sum)
    requires Acceptable(items)
    ensures var image := ImageFor(items, sha);
      && image[..8] == [0x46, 0x47, 0x42, 0x52, 1, 0, |items|, 0]
      && forall k | 8 + 72 * |items| <= k < 4096 :: image[k] == 0xFF
  {
    hide EncodeName, HeaderAccepted, RowBytes;
    RowsFit(items, sha);
    JoinedLength(items);
    var directory := HeaderBytes(|items|) + AllRowBytes(RowsFor(items, sha));
    assert ImageFor(items, sha) == directory + Filler(4096 - |directory|) + JoinedData(items);
    assert directory[..8] == HeaderBytes(|items|);
    hide AllRowBytes, JoinedData, ImageFor;
  }

  /** An image can be built exactly from one to sixteen ROMs that the device takes, under different names that can
      be encoded, if they fit into 4 MiB behind the first sector. */
  lemma AcceptableExactlyWhen(items: seq<Source>)
    ensures Acceptable(items) <==>
      && 1 <= |items| <= 16 && 4096 + Total(items) <= 0x400000
      && (forall i | 0 <= i < |items| :: RomUploads.RomImage(items[i].data) && EncodeName(items[i].name).Some?)
      && forall i, j | 0 <= j < i < |items| :: EncodeName(items[i].name) != EncodeName(items[j].name)
  {
    hide AcceptableRom, EncodeName, RomUploads.RomImage;
    forall i | 0 <= i < |items| ensures AcceptableRom(items[i].data) <==> RomUploads.RomImage(items[i].data) && |items[i].data| <= 0x400000 {
      AcceptableRomExactlyWhen(items[i].data);
    }
    forall i | 0 <= i < |items| ensures |items[i].data| <= Total(items) {
      OnePart(items, i);
    }
    hide Total;
  }

  lemma OnePart(items: seq<Source>, i: nat)
    requires i < |items|
    ensures |items[i].data| <= Total(items)
  {
    TotalGrows(items, i + 1);
    TotalFromBack(items[..i + 1]);
    assert items[..i + 1][..i] == items[..i];
  }

  // ----- What passes.

  /** Address k lies in the ROM of row i. */
  predicate Holds(image: seq<byte>, i: nat, k: int)
    requires |image| >= 4096 && i < 16
  {
    At4(image, 40 + 72 * i) <= k < At4(image, 40 + 72 * i) + At4(image, 44 + 72 * i)
  }

  /** A row names a ROM that the device takes, inside the image, behind the directory and at a sector, with its
      hash. */
  predicate GoodRow(image: seq<byte>, i: nat, sha: seq<byte> -> Sum)
    requires |image| >= 4096 && i < 16
  {
    var at, size := At4(image, 40 + 72 * i), At4(image, 44 + 72 * i);
    && image[8 + 72 * i] != 0 && (exists k | 9 + 72 * i <= k < 40 + 72 * i :: image[k] == 0)
    && 4096 <= at && at % 4096 == 0 && at + size <= |image|
    && RomUploads.RomImage(image[at..at + size]) && sha(image[at..at + size]) == image[48 + 72 * i..80 + 72 * i]
  }

  /** An image in which no address lies in two ROMs. */
  ghost predicate Sound(image: seq<byte>, n: nat, sha: seq<byte> -> Sum)
    requires |image| >= 4096 && n <= 16
  {
    && (forall i | 0 <= i < n :: GoodRow(image, i, sha))
    && forall i, j, k | 0 <= j < i < n :: !(Holds(image, i, k) && Holds(image, j, k))
  }

  lemma NameFieldOpens(image: seq<byte>, i: nat)
    requires |image| >= 4096 && i < 16
    ensures 0 in NameField(image, i) && NameField(image, i)[0] != 0 <==>
            image[8 + 72 * i] != 0 && exists k | 9 + 72 * i <= k < 40 + 72 * i :: image[k] == 0
  {
    var name := NameField(image, i);
    assert name[0] == image[8 + 72 * i];
    if 0 in name && name[0] != 0 {
      var j :| 0 <= j < 32 && name[j] == 0;
      assert image[8 + 72 * i + j] == 0;
    }
    if k :| 9 + 72 * i <= k < 40 + 72 * i && image[k] == 0 {
      assert name[k - 8 - 72 * i] == 0;
    }
  }

  lemma ApartMeans(image: seq<byte>, i: nat, j: nat)
    requires |image| >= 4096 && i < 16 && j < 16 && At4(image, 44 + 72 * i) > 0 && At4(image, 44 + 72 * j) > 0
    ensures Apart(image, i, j) <==> forall k :: !(Holds(image, i, k) && Holds(image, j, k))
  {
    FieldsAt(image, i);
    FieldsAt(image, j);
    hide At4, OffsetField, SizeField;
    var a, b := At4(image, 40 + 72 * i), At4(image, 40 + 72 * j);
    if !Apart(image, i, j) {
      var k := if a < b then b else a;
      assert Holds(image, i, k) && Holds(image, j, k);
    }
  }

  lemma RowPassesWhen(image: seq<byte>, i: nat, sha: seq<byte> -> Sum)
    requires |image| >= 4096 && i < 16
    ensures RowPasses(image, i, sha) <==> GoodRow(image, i, sha) && forall j | 0 <= j < i :: Apart(image, i, j)
  {
    FieldsAt(image, i);
    NameFieldOpens(image, i);
    hide At4, OffsetField, SizeField, NameField, DigestField, Apart, HeaderAccepted, RomUploads.RomImage;
    var at, size := At4(image, 40 + 72 * i), At4(image, 44 + 72 * i);
    if at + size <= |image| {
      var rom := image[at..at + size];
      RomSize(rom);
    }
  }

  lemma RomSize(rom: seq<byte>)
    ensures RomUploads.RomImage(rom) <==> |rom| >= 32768 && |rom| % 16384 == 0 && HeaderAccepted(rom)
  {
    if |rom| >= 0x150 {
      RomUploads.HeaderAcceptedExactlyWhen(rom);
    }
    if RomUploads.RomImage(rom) {
      RomUploads.RomImageSize(rom);
    }
    hide HeaderAccepted;
  }

  /** An image passes exactly if it has the header of one to sixteen rows, and they are sound. */
  lemma PassesExactlyWhen(image: seq<byte>, sha: seq<byte> -> Sum)
    ensures Passes(image, sha) <==>
      && 4096 <= |image| <= 0x400000
      && exists n: nat :: 1 <= n <= 16 && image[..8] == [0x46, 0x47, 0x42, 0x52, 1, 0, n, 0] && Sound(image, n, sha)
  {
    hide RowPasses, GoodRow, Holds, Apart;
    if |image| >= 4096 {
      HeaderIs(image);
      if 1 <= CountField(image) <= 16 {
        RowsPassWhen(image, CountField(image), sha);
      }
      hide Sound;
    }
  }

  lemma HeaderIs(image: seq<byte>)
    requires |image| >= 4096
    ensures forall n: nat | n <= 16 ::
      image[..8] == [0x46, 0x47, 0x42, 0x52, 1, 0, n, 0] <==>
      image[..4] == TABLE_MAGIC && image[4] + 256 * (image[5] as int) == 1 && CountField(image) == n
  {
    assert image[..8] == image[..4] + [image[4], image[5], image[6], image[7]];
    assert image[..8][..4] == image[..4];
    forall n: nat | n <= 16 && image[..8] == [0x46, 0x47, 0x42, 0x52, 1, 0, n, 0]
      ensures image[..4] == TABLE_MAGIC && image[4] == 1 && image[5] == 0 && image[6] == n && image[7] == 0
    {
      assert image[..8][4] == 1 && image[..8][5] == 0 && image[..8][6] == n && image[..8][7] == 0;
    }
  }

  lemma RowsPassWhen(image: seq<byte>, n: nat, sha: seq<byte> -> Sum)
    requires |image| >= 4096 && n <= 16
    ensures (forall i | 0 <= i < n :: RowPasses(image, i, sha)) <==> Sound(image, n, sha)
  {
    hide RowPasses, GoodRow, Holds, Apart;
    forall i | 0 <= i < n
      ensures RowPasses(image, i, sha) <==> GoodRow(image, i, sha) && forall j | 0 <= j < i :: Apart(image, i, j)
    {
      RowPassesWhen(image, i, sha);
    }
    if forall i | 0 <= i < n :: GoodRow(image, i, sha) {
      forall i, j | 0 <= j < i < n ensures Apart(image, i, j) <==> forall k :: !(Holds(image, i, k) && Holds(image, j, k)) {
        GoodRowHasSize(image, i, sha);
        GoodRowHasSize(image, j, sha);
        ApartMeans(image, i, j);
      }
      if forall i, j | 0 <= j < i < n :: Apart(image, i, j) {
        forall i, j, k | 0 <= j < i < n ensures !(Holds(image, i, k) && Holds(image, j, k)) {
          assert Apart(image, i, j);
        }
      } else {
        var i, j :| 0 <= j < i < n && !Apart(image, i, j);
        var k :| Holds(image, i, k) && Holds(image, j, k);
        assert !RowPasses(image, i, sha);
      }
    }
  }

  lemma GoodRowHasSize(image: seq<byte>, i: nat, sha: seq<byte> -> Sum)
    requires |image| >= 4096 && i < 16 && GoodRow(image, i, sha)
    ensures At4(image, 44 + 72 * i) > 0
  {
  }
}
