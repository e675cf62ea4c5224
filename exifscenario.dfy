/**
 * The scenario of the fixture tests, on a small tree instead of an image file:
 * allow id 0x9209 (Flash) and the paths "IFD/Orientation",
 * "IFD/GPSInfo/GPSTimeStamp" and "IFD/GPSInfo/GPSDateStamp". The root directory
 * holds Make, Orientation and the pointers to the Exif and GPS directories; the
 * next directory holds a thumbnail. Only Orientation, Flash, GPSTimeStamp and
 * GPSDateStamp survive, with the pointer chain down to them and the empty
 * thumbnail directory.
 */
module ExifScrubberScenario {
  import opened Wrappers
  import opened ExifScrubber

  const TestScrubber := ExifScrubber([0x9209], ["IFD/Orientation", "IFD/GPSInfo/GPSTimeStamp", "IFD/GPSInfo/GPSDateStamp"])

  function Scalar(path: string, id: u16, name: string, raw: seq<byte>): TagEntry
  {
    TagEntry(id, name, 3, path, Some(raw), "", false, false)
  }

  const RootId := IfdIdentity("IFD", 0, 0xffff)
  const ExifId := IfdIdentity("IFD/Exif", 0, 0x8769)
  const GpsId := IfdIdentity("IFD/GPSInfo", 0, 0x8825)
  const ThumbId := IfdIdentity("IFD", 1, 0xffff)

  const ExifDir := Ifd(ExifId, BigEndian,
    [Scalar("IFD/Exif", 0x9003, "DateTimeOriginal", [50]), Scalar("IFD/Exif", 0x9209, "Flash", [0, 16])],
    [], 2, None)

  const GpsDir := Ifd(GpsId, BigEndian,
    [Scalar("IFD/GPSInfo", 0x0002, "GPSLatitude", [1]),
     Scalar("IFD/GPSInfo", 0x0007, "GPSTimeStamp", [2]),
     Scalar("IFD/GPSInfo", 0x001d, "GPSDateStamp", [3])],
    [], 3, None)

  const ThumbDir := Ifd(ThumbId, BigEndian,
    [TagEntry(0x0201, "JPEGInterchangeFormat", 4, "IFD", Some([9]), "", true, false),
     TagEntry(0x0202, "JPEGInterchangeFormatLength", 4, "IFD", Some([8]), "", false, true)],
    [], -1, None)

  const RootDir := Ifd(RootId, BigEndian,
    [Scalar("IFD", 0x010f, "Make", [7]),
     Scalar("IFD", 0x0112, "Orientation", [0, 1]),
     TagEntry(0x8769, "ExifTag", 4, "IFD", Some([0]), "IFD/Exif", false, false),
     TagEntry(0x8825, "GPSTag", 4, "IFD", Some([0]), "IFD/GPSInfo", false, false)],
    [ExifDir, GpsDir], -1, Some(ThumbDir))

  const Flash := ValueTag("IFD/Exif", 0x9209, 3, [0, 16], BigEndian)
  const TimeStamp := ValueTag("IFD/GPSInfo", 0x0007, 3, [2], BigEndian)
  const DateStamp := ValueTag("IFD/GPSInfo", 0x001d, 3, [3], BigEndian)
  const Orientation := ValueTag("IFD", 0x0112, 3, [0, 1], BigEndian)
  const ExifPointer := ChildTag([IfdBuilder(ExifId, BigEndian, [Flash])])
  const GpsPointer := ChildTag([IfdBuilder(GpsId, BigEndian, [TimeStamp, DateStamp])])

  const Expected: seq<IfdBuilder> := [
    IfdBuilder(RootId, BigEndian, [Orientation, ExifPointer, GpsPointer]),
    IfdBuilder(ThumbId, BigEndian, [])]

  /** Of the Exif directory only Flash, allowed by id, survives. */
  lemma ExifDirRebuild()
    ensures FilterChain(TestScrubber, Some(ExifDir)) == Ok([IfdBuilder(ExifId, BigEndian, [Flash])])
  {
    assert FilterEntries(TestScrubber, ExifDir, 2) == Ok([]);
    assert Allowed(TestScrubber, ExifDir.entries[1]) && !IsPointer(ExifDir.entries[1]);
    assert [Flash] + [] == [Flash];
    assert FilterEntries(TestScrubber, ExifDir, 1) == Ok([Flash]);
    assert TagPath(ExifDir.entries[0]) == "IFD/Exif/DateTimeOriginal";
    assert FilterEntries(TestScrubber, ExifDir, 0) == Ok([Flash]);
    assert FilterChain(TestScrubber, None) == Ok([]);
    var exifIb := IfdBuilder(ExifId, BigEndian, [Flash]);
    assert [exifIb] + [] == [exifIb];
  }

  /** The two GPS stamps are allowed by their paths. */
  lemma GpsStampsAllowed()
    ensures Allowed(TestScrubber, GpsDir.entries[1]) && Allowed(TestScrubber, GpsDir.entries[2])
  {
    assert TagPath(GpsDir.entries[1]) == "IFD/GPSInfo/GPSTimeStamp";
    assert TagPath(GpsDir.entries[2]) == "IFD/GPSInfo/GPSDateStamp";
  }

  /** Of the GPS directory the two stamps survive and the position does not. */
  lemma GpsDirRebuild()
    ensures FilterChain(TestScrubber, Some(GpsDir)) == Ok([IfdBuilder(GpsId, BigEndian, [TimeStamp, DateStamp])])
  {
    assert FilterEntries(TestScrubber, GpsDir, 3) == Ok([]);
    GpsStampsAllowed();
    CopiedStep(TestScrubber, GpsDir, 2);
    assert [DateStamp] + [] == [DateStamp];
    CopiedStep(TestScrubber, GpsDir, 1);
    assert [TimeStamp] + [DateStamp] == [TimeStamp, DateStamp];
    assert TagPath(GpsDir.entries[0]) == "IFD/GPSInfo/GPSLatitude";
    SkippedStep(TestScrubber, GpsDir, 0);
    assert FilterEntries(TestScrubber, GpsDir, 0) == Ok([TimeStamp, DateStamp]);
    assert FilterChain(TestScrubber, None) == Ok([]);
    var gpsIb := IfdBuilder(GpsId, BigEndian, [TimeStamp, DateStamp]);
    assert [gpsIb] + [] == [gpsIb];
  }

  /** The thumbnail directory is rebuilt empty. */
  lemma ThumbDirRebuild()
    ensures FilterChain(TestScrubber, Some(ThumbDir)) == Ok([IfdBuilder(ThumbId, BigEndian, [])])
  {
    assert FilterEntries(TestScrubber, ThumbDir, 2) == Ok([]);
    assert FilterEntries(TestScrubber, ThumbDir, 0) == Ok([]);
    assert FilterChain(TestScrubber, None) == Ok([]);
    var thumbIb := IfdBuilder(ThumbId, BigEndian, []);
    assert [thumbIb] + [] == [thumbIb];
  }

  /** The two pointers of the root directory lead to the Exif and GPS directories. */
  lemma RootPointersRebuild()
    ensures FilterEntries(TestScrubber, RootDir, 2) == Ok([ExifPointer, GpsPointer])
  {
    assert FirstChildAt(RootDir.children, 3) == Some(GpsDir);
    GpsDirRebuild();
    assert FilterEntries(TestScrubber, RootDir, 4) == Ok([]);
    assert [GpsPointer] + [] == [GpsPointer];
    assert FilterEntries(TestScrubber, RootDir, 3) == Ok([GpsPointer]);
    assert FirstChildAt(RootDir.children, 2) == Some(ExifDir);
    ExifDirRebuild();
    assert [ExifPointer] + [GpsPointer] == [ExifPointer, GpsPointer];
  }

  /** One step over an allowed scalar entry: it is copied in front of the rest. */
  lemma CopiedStep(s: ExifScrubber, ifd: Ifd, i: nat)
    requires i < |ifd.entries|
    requires var e := ifd.entries[i]; !IsThumbnail(e) && !IsPointer(e) && Allowed(s, e) && e.rawBytes.Some?
    ensures var e := ifd.entries[i];
      FilterEntries(s, ifd, i) == Prepend(ValueTag(ifd.identity.unindexedPath, e.tagId, e.tagType, e.rawBytes.value, ifd.byteOrder), FilterEntries(s, ifd, i + 1))
  {
  }

  /** One step over a thumbnail or a disallowed scalar entry: it is skipped. */
  lemma SkippedStep(s: ExifScrubber, ifd: Ifd, i: nat)
    requires i < |ifd.entries|
    requires var e := ifd.entries[i]; IsThumbnail(e) || (!IsPointer(e) && !Allowed(s, e))
    ensures FilterEntries(s, ifd, i) == FilterEntries(s, ifd, i + 1)
  {
  }

  /** Orientation is allowed by its path. */
  lemma OrientationAllowed()
    ensures Allowed(TestScrubber, RootDir.entries[1])
  {
    assert TagPath(RootDir.entries[1]) == "IFD/Orientation";
  }

  /** Orientation, allowed by path, is copied. */
  lemma RootOrientationRebuild()
    ensures FilterEntries(TestScrubber, RootDir, 1) == Ok([Orientation, ExifPointer, GpsPointer])
  {
    RootPointersRebuild();
    OrientationAllowed();
    CopiedStep(TestScrubber, RootDir, 1);
    assert [Orientation] + [ExifPointer, GpsPointer] == [Orientation, ExifPointer, GpsPointer];
  }

  /** The root directory keeps Orientation and both pointers, and drops Make. */
  lemma RootEntriesRebuild()
    ensures FilterEntries(TestScrubber, RootDir, 0) == Ok([Orientation, ExifPointer, GpsPointer])
  {
    RootOrientationRebuild();
    assert TagPath(RootDir.entries[0]) == "IFD/Make";
    SkippedStep(TestScrubber, RootDir, 0);
  }

  /** The whole scenario rebuilds to exactly the expected tree. */
  lemma ScenarioRebuild()
    ensures FilterChain(TestScrubber, Some(RootDir)) == Ok(Expected)
  {
    RootEntriesRebuild();
    ThumbDirRebuild();
    assert [Expected[0]] + [Expected[1]] == Expected;
  }
}
