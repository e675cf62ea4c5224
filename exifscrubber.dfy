/**
 * The EXIF scrubber: the allow-list filter, the directory rebuilder and the
 * scrub entry point of package exifscrubber.
 *
 * The parsed EXIF tree that go-exif hands over is an inductive value (`Ifd`):
 * each directory has its entries, its child directories (each recording the
 * position of the pointer entry that leads to it) and an optional next
 * directory in its chain. The builders the rebuilder produces are values too
 * (`IfdBuilder`); a chain of builders is a sequence, the empty sequence being
 * Go's nil builder.
 */
module ExifScrubber {
  import opened Wrappers

  newtype u16 = x: int | 0 <= x < 0x1_0000
  newtype byte = x: int | 0 <= x < 0x100

  datatype ByteOrder = BigEndian | LittleEndian

  /**
   * exifcommon.IfdIdentity: the unindexed path ("IFD/GPSInfo"), the position in
   * its chain, and the id of the tag that points to the directory.
   */
  datatype IfdIdentity = IfdIdentity(unindexedPath: string, index: nat, tagId: u16)

  /** exif.IfdTagEntry, as far as the scrubber reads it. */
  datatype TagEntry = TagEntry(
    tagId: u16,
    tagName: string,
    tagType: u16,
    ifdPath: string,
    // what GetRawBytes yields; None where the library reports an error
    rawBytes: Option<seq<byte>>,
    // non-empty exactly when the entry points to a child directory
    childIfdPath: string,
    isThumbnailOffset: bool,
    isThumbnailSize: bool)

  /** exif.Ifd: one directory of a parsed EXIF tree. */
  datatype Ifd = Ifd(
    identity: IfdIdentity,
    byteOrder: ByteOrder,
    entries: seq<TagEntry>,
    children: seq<Ifd>,
    parentTagIndex: int,
    next: Option<Ifd>)

  /** exif.BuilderTag: raw bytes for a scalar, or the child builder chain for a pointer. */
  datatype BuilderTag =
    | ValueTag(ifdPath: string, tagId: u16, tagType: u16, value: seq<byte>, byteOrder: ByteOrder)
    | ChildTag(childIb: seq<IfdBuilder>)

  /** exif.IfdBuilder without its next link; a chain of builders is a sequence. */
  datatype IfdBuilder = IfdBuilder(identity: IfdIdentity, byteOrder: ByteOrder, tags: seq<BuilderTag>)

  datatype ScrubError =
    | UnknownFileType
    | RawBytesUnavailable(ifdPath: string, tagId: u16)
    | ContainerError(message: string)

  /** The two allow-lists, fixed when the scrubber is made (NewExifScrubber). */
  datatype ExifScrubber = ExifScrubber(includedTagIds: seq<u16>, includedTagPaths: seq<string>)

  // ---------------------------------------------------------------------------
  // Specification

  /** The "<ifd-path>/<tag-name>" string that the path allow-list is matched against. */
  function TagPath(e: TagEntry): string
  {
    e.ifdPath + "/" + e.tagName
  }

  /** The allow rule: the id is listed, or the exact path string is listed. */
  predicate Allowed(s: ExifScrubber, e: TagEntry)
  {
    e.tagId in s.includedTagIds || TagPath(e) in s.includedTagPaths
  }

  predicate IsThumbnail(e: TagEntry)
  {
    e.isThumbnailOffset || e.isThumbnailSize
  }

  predicate IsPointer(e: TagEntry)
  {
    e.childIfdPath != ""
  }

  /** Whether the rebuilt directory keeps entry `e`: thumbnail markers never, pointers always, scalars when allowed. */
  predicate Kept(s: ExifScrubber, e: TagEntry)
  {
    !IsThumbnail(e) && (IsPointer(e) || Allowed(s, e))
  }

  /** The number of directories reachable from `ifd` through children and next links. */
  function Size(ifd: Ifd): nat
    decreases ifd
  {
    1 + ChildrenSize(ifd.children) + (match ifd.next case None => 0 case Some(n) => Size(n))
  }

  function ChildrenSize(children: seq<Ifd>): nat
    decreases children
  {
    if children == [] then 0 else Size(children[0]) + ChildrenSize(children[1..])
  }

  function SizeOpt(ifd: Option<Ifd>): nat
  {
    match ifd case None => 0 case Some(d) => Size(d)
  }

  lemma {:induction false} ChildSmaller(children: seq<Ifd>, k: nat)
    requires k < |children|
    ensures Size(children[k]) <= ChildrenSize(children)
  {
    if k > 0 {
      ChildSmaller(children[1..], k - 1);
    }
  }

  /**
   * The child directory that the pointer entry at position `i` stands for: the
   * first recorded child whose parent-tag index is `i`, whatever its identity says.
   */
  function FirstChildAt(children: seq<Ifd>, i: int): (r: Option<Ifd>)
    ensures r.None? <==> forall k :: 0 <= k < |children| ==> children[k].parentTagIndex != i
    ensures r.Some? ==> exists k :: 0 <= k < |children| && children[k] == r.value
                                    && r.value.parentTagIndex == i
                                    && forall j :: 0 <= j < k ==> children[j].parentTagIndex != i
  {
    if children == [] then None
    else if children[0].parentTagIndex == i then Some(children[0])
    else
      var r := FirstChildAt(children[1..], i);
      assert forall k :: 1 <= k < |children| ==> children[k] == children[1..][k - 1];
      r
  }

  /** The child found for a pointer is smaller than its parent, so the rebuild terminates. */
  lemma FirstChildSmaller(ifd: Ifd, i: int)
    ensures SizeOpt(FirstChildAt(ifd.children, i)) < Size(ifd)
  {
    var r := FirstChildAt(ifd.children, i);
    if r.Some? {
      var k :| 0 <= k < |ifd.children| && ifd.children[k] == r.value;
      ChildSmaller(ifd.children, k);
    }
  }

  function Prepend<T>(x: T, r: Result<seq<T>, ScrubError>): Result<seq<T>, ScrubError>
  {
    match r
    case Err(e) => Err(e)
    case Ok(xs) => Ok([x] + xs)
  }

  function Concat<T>(xs: seq<T>, r: Result<seq<T>, ScrubError>): Result<seq<T>, ScrubError>
  {
    match r
    case Err(e) => Err(e)
    case Ok(ys) => Ok(xs + ys)
  }

  lemma ConcatNil<T>(r: Result<seq<T>, ScrubError>)
    ensures Concat([], r) == r
  {
    if r.Ok? {
      assert [] + r.value == r.value;
    }
  }

  lemma ConcatPrepend<T>(xs: seq<T>, x: T, r: Result<seq<T>, ScrubError>)
    ensures Concat(xs, Prepend(x, r)) == Concat(xs + [x], r)
  {
    if r.Ok? {
      assert xs + ([x] + r.value) == xs + [x] + r.value;
    }
  }

  /** The builder chain rebuilt from the chain that starts at `root` (empty for nil). */
  function FilterChain(s: ExifScrubber, root: Option<Ifd>): Result<seq<IfdBuilder>, ScrubError>
    decreases SizeOpt(root), 1, 0
  {
    match root
    case None => Ok([])
    case Some(ifd) =>
      match FilterEntries(s, ifd, 0)
      case Err(e) => Err(e)
      case Ok(tags) => Prepend(IfdBuilder(ifd.identity, ifd.byteOrder, tags), FilterChain(s, ifd.next))
  }

  /** The builder tags rebuilt from the entries of `ifd` at positions `i` and later. */
  function FilterEntries(s: ExifScrubber, ifd: Ifd, i: nat): Result<seq<BuilderTag>, ScrubError>
    requires i <= |ifd.entries|
    decreases Size(ifd), 0, |ifd.entries| - i
  {
    if i == |ifd.entries| then Ok([])
    else
      var e := ifd.entries[i];
      if IsThumbnail(e) then FilterEntries(s, ifd, i + 1)
      else if IsPointer(e) then
        FirstChildSmaller(ifd, i);
        match FilterChain(s, FirstChildAt(ifd.children, i))
        case Err(err) => Err(err)
        case Ok(childIb) => Prepend(ChildTag(childIb), FilterEntries(s, ifd, i + 1))
      else if !Allowed(s, e) then FilterEntries(s, ifd, i + 1)
      else
        match e.rawBytes
        case None => Err(RawBytesUnavailable(e.ifdPath, e.tagId))
        case Some(raw) =>
          Prepend(ValueTag(ifd.identity.unindexedPath, e.tagId, e.tagType, raw, ifd.byteOrder),
                  FilterEntries(s, ifd, i + 1))
  }

  // ---------------------------------------------------------------------------
  // The scrubber's operations

  /** isTagAllowed: scans the id list first, then the path list. */
  method IsTagAllowed(s: ExifScrubber, tag: TagEntry) returns (allowed: bool)
    ensures allowed <==> (tag.tagId in s.includedTagIds || tag.ifdPath + "/" + tag.tagName in s.includedTagPaths)
  {
    for k := 0 to |s.includedTagIds|
      invariant tag.tagId !in s.includedTagIds[..k]
    {
      if s.includedTagIds[k] == tag.tagId {
        return true;
      }
    }
    var tagPath := tag.ifdPath + "/" + tag.tagName;
    for k := 0 to |s.includedTagPaths|
      invariant tagPath !in s.includedTagPaths[..k]
    {
      if s.includedTagPaths[k] == tagPath {
        return true;
      }
    }
    return false;
  }

  /**
   * filteringIfdBuilder: walks the chain from `rootIfd`, making one builder per
   * directory with that directory's identity and byte order, linked in the same
   * order (here: appended to the chain), and fills each one.
   */
  method FilteringIfdBuilder(s: ExifScrubber, rootIfd: Option<Ifd>) returns (r: Result<seq<IfdBuilder>, ScrubError>)
    ensures r == FilterChain(s, rootIfd)
    decreases SizeOpt(rootIfd), 1, 0
  {
    var chain: seq<IfdBuilder> := [];
    var thisExistingIfd := rootIfd;
    ConcatNil(FilterChain(s, rootIfd));
    while thisExistingIfd.Some?
      invariant SizeOpt(thisExistingIfd) <= SizeOpt(rootIfd)
      invariant FilterChain(s, rootIfd) == Concat(chain, FilterChain(s, thisExistingIfd))
      decreases SizeOpt(thisExistingIfd)
    {
      var ifd := thisExistingIfd.value;
      var tags := FilteredAddTagsFromExisting(s, ifd);
      if tags.Err? {
        return Err(tags.error);
      }
      var newIb := IfdBuilder(ifd.identity, ifd.byteOrder, tags.value);
      assert FilterChain(s, thisExistingIfd) == Prepend(newIb, FilterChain(s, ifd.next));
      ConcatPrepend(chain, newIb, FilterChain(s, ifd.next));
      chain := chain + [newIb];
      thisExistingIfd := ifd.next;
    }
    assert chain + [] == chain;
    return Ok(chain);
  }

  /**
   * filteredAddTagsFromExisting: goes through the entries of `ifd` in order and
   * appends what the builder keeps; a pointer entry is rebuilt recursively from
   * the first child recorded at its position.
   */
  method FilteredAddTagsFromExisting(s: ExifScrubber, ifd: Ifd) returns (r: Result<seq<BuilderTag>, ScrubError>)
    ensures r == FilterEntries(s, ifd, 0)
    decreases Size(ifd), 0, 0
  {
    var tags: seq<BuilderTag> := [];
    ConcatNil(FilterEntries(s, ifd, 0));
    for i := 0 to |ifd.entries|
      invariant FilterEntries(s, ifd, 0) == Concat(tags, FilterEntries(s, ifd, i))
    {
      var ite := ifd.entries[i];
      if ite.isThumbnailOffset || ite.isThumbnailSize {
        // added again by the encoder
        continue;
      }
      var bt: BuilderTag;
      if ite.childIfdPath != "" {
        // find the child directory recorded at this entry's position; a child
        // whose identity names another tag is only reported, and still used
        var childIfd: Option<Ifd> := None;
        var k := 0;
        while k < |ifd.children|
          invariant 0 <= k <= |ifd.children|
          invariant forall j :: 0 <= j < k ==> ifd.children[j].parentTagIndex != i
          invariant childIfd.None?
        {
          if ifd.children[k].parentTagIndex == i {
            childIfd := Some(ifd.children[k]);
            break;
          }
          k := k + 1;
        }
        assert childIfd == FirstChildAt(ifd.children, i);
        FirstChildSmaller(ifd, i);
        var childIb := FilteringIfdBuilder(s, childIfd);
        if childIb.Err? {
          return Err(childIb.error);
        }
        bt := ChildTag(childIb.value);
      } else {
        var isAllowed := IsTagAllowed(s, ite);
        if !isAllowed {
          continue;
        }
        if ite.rawBytes.None? {
          return Err(RawBytesUnavailable(ite.ifdPath, ite.tagId));
        }
        bt := ValueTag(ifd.identity.unindexedPath, ite.tagId, ite.tagType, ite.rawBytes.value, ifd.byteOrder);
      }
      // ib.Add for raw bytes, ib.AddChildIb for a child builder: both append
      assert FilterEntries(s, ifd, i) == Prepend(bt, FilterEntries(s, ifd, i + 1));
      ConcatPrepend(tags, bt, FilterEntries(s, ifd, i + 1));
      tags := tags + [bt];
    }
    assert tags + [] == tags;
    return Ok(tags);
  }

  // ---------------------------------------------------------------------------
  // ScrubExif over a container library

  /** What segmentList.Exif() / chunks.Exif() report. */
  datatype ExifLookup = Found(root: Ifd) | NoExif | LookupFailed(message: string)

  /**
   * The part of a container library (JPEG segments, PNG chunks) that ScrubExif
   * uses; `C` is its parsed container. Errors are the library's messages.
   */
  datatype ContainerAdapter<!C> = ContainerAdapter(
    looksLikeFormat: seq<byte> -> bool,
    parseBytes: seq<byte> -> Result<C, string>,
    exif: C -> ExifLookup,
    setExif: (C, seq<IfdBuilder>) -> C,
    write: C -> Result<seq<byte>, string>)

  /** The outcome of scrubbing `fileData` with a container library that recognised it. */
  function ContainerOutcome<C>(s: ExifScrubber, adapter: ContainerAdapter<C>, fileData: seq<byte>): Result<seq<byte>, ScrubError>
  {
    match adapter.parseBytes(fileData)
    case Err(m) => Err(ContainerError(m))
    case Ok(container) =>
      match adapter.exif(container)
      case NoExif => Ok(fileData)
      case LookupFailed(m) => Err(ContainerError(m))
      case Found(root) =>
        match FilterChain(s, Some(root))
        case Err(e) => Err(e)
        case Ok(filteredIb) =>
          match adapter.write(adapter.setExif(container, filteredIb))
          case Err(m) => Err(ContainerError(m))
          case Ok(out) => Ok(out)
  }

  /** The rebuild never reports an unknown file type. */
  lemma {:induction false} ChainNeverUnknown(s: ExifScrubber, root: Option<Ifd>)
    ensures FilterChain(s, root) != Err(UnknownFileType)
    decreases SizeOpt(root), 1, 0
  {
    if root.Some? {
      EntriesNeverUnknown(s, root.value, 0);
      ChainNeverUnknown(s, root.value.next);
    }
  }

  lemma {:induction false} EntriesNeverUnknown(s: ExifScrubber, ifd: Ifd, i: nat)
    requires i <= |ifd.entries|
    ensures FilterEntries(s, ifd, i) != Err(UnknownFileType)
    decreases Size(ifd), 0, |ifd.entries| - i
  {
    if i < |ifd.entries| {
      EntriesNeverUnknown(s, ifd, i + 1);
      if IsPointer(ifd.entries[i]) {
        FirstChildSmaller(ifd, i);
        ChainNeverUnknown(s, FirstChildAt(ifd.children, i));
      }
    }
  }

  /** A container library that recognised the data never leads to ErrUnknownFileType. */
  lemma ContainerNeverUnknown<C>(s: ExifScrubber, adapter: ContainerAdapter<C>, fileData: seq<byte>)
    ensures ContainerOutcome(s, adapter, fileData) != Err(UnknownFileType)
  {
    var parsed := adapter.parseBytes(fileData);
    if parsed.Ok? && adapter.exif(parsed.value).Found? {
      ChainNeverUnknown(s, Some(adapter.exif(parsed.value).root));
    }
  }

  /**
   * One branch of ScrubExif: parse, look up the EXIF, rebuild it, substitute it, write.
   * The method follows the source's control flow; ContainerOutcome is its specification.
   */
  method ScrubContainer<C>(s: ExifScrubber, adapter: ContainerAdapter<C>, fileData: seq<byte>) returns (r: Result<seq<byte>, ScrubError>)
    ensures r == ContainerOutcome(s, adapter, fileData)
  {
    var parsed := adapter.parseBytes(fileData);
    if parsed.Err? {
      return Err(ContainerError(parsed.error));
    }
    var container := parsed.value;
    var lookup := adapter.exif(container);
    if lookup.NoExif? {
      // no EXIF in the first place: hand back the original
      return Ok(fileData);
    } else if lookup.LookupFailed? {
      return Err(ContainerError(lookup.message));
    }
    var filteredIb := FilteringIfdBuilder(s, Some(lookup.root));
    if filteredIb.Err? {
      return Err(filteredIb.error);
    }
    // the error that SetExif returns is discarded by the source
    container := adapter.setExif(container, filteredIb.value);
    var written := adapter.write(container);
    if written.Err? {
      return Err(ContainerError(written.error));
    }
    return Ok(written.value);
  }

  /** ScrubExif: JPEG is tried before PNG; any other format is ErrUnknownFileType. */
  method ScrubExif<J, P>(s: ExifScrubber, jpeg: ContainerAdapter<J>, png: ContainerAdapter<P>, fileData: seq<byte>)
    returns (r: Result<seq<byte>, ScrubError>)
    ensures jpeg.looksLikeFormat(fileData) ==> r == ContainerOutcome(s, jpeg, fileData)
    ensures !jpeg.looksLikeFormat(fileData) && png.looksLikeFormat(fileData) ==> r == ContainerOutcome(s, png, fileData)
    ensures !jpeg.looksLikeFormat(fileData) && !png.looksLikeFormat(fileData) ==> r == Err(UnknownFileType)
    ensures (jpeg.looksLikeFormat(fileData) && jpeg.parseBytes(fileData).Ok?
             && jpeg.exif(jpeg.parseBytes(fileData).value).NoExif?) ==> r == Ok(fileData)
    ensures (!jpeg.looksLikeFormat(fileData) && png.looksLikeFormat(fileData) && png.parseBytes(fileData).Ok?
             && png.exif(png.parseBytes(fileData).value).NoExif?) ==> r == Ok(fileData)
    ensures r.Err? && r.error == UnknownFileType ==> !jpeg.looksLikeFormat(fileData) && !png.looksLikeFormat(fileData)
  {
    if jpeg.looksLikeFormat(fileData) {
      ContainerNeverUnknown(s, jpeg, fileData);
      r := ScrubContainer(s, jpeg, fileData);
      return;
    }
    if png.looksLikeFormat(fileData) {
      ContainerNeverUnknown(s, png, fileData);
      r := ScrubContainer(s, png, fileData);
      return;
    }
    // other formats: the caller decides how to go on
    return Err(UnknownFileType);
  }
}
