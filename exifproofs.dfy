/**
 * What the rebuild promises about its output: one builder per directory of the
 * chain, in order; per directory, the kept entries in their original order,
 * scalars verbatim and pointers rebuilt; thumbnail markers never; every scalar
 * left anywhere in the rebuilt tree allowed by id or by path.
 */
module ExifScrubberProofs {
  import opened Wrappers
  import opened ExifScrubber

  // ---------------------------------------------------------------------------
  // The chain

  /** The directories of the chain that starts at `root`, in next-link order. */
  function Siblings(root: Option<Ifd>): seq<Ifd>
    decreases SizeOpt(root)
  {
    match root
    case None => []
    case Some(ifd) => [ifd] + Siblings(ifd.next)
  }

  /**
   * The rebuilt chain has one builder per input directory, in the same order, each
   * with that directory's identity and byte order and that directory's kept tags;
   * it fails exactly when one of the directories fails.
   */
  lemma {:induction false} ChainMirrorsSiblings(s: ExifScrubber, root: Option<Ifd>)
    ensures FilterChain(s, root).Ok?
            <==> forall k :: 0 <= k < |Siblings(root)| ==> FilterEntries(s, Siblings(root)[k], 0).Ok?
    ensures FilterChain(s, root).Ok? ==>
              var chain, sib := FilterChain(s, root).value, Siblings(root);
              && |chain| == |sib|
              && forall k :: 0 <= k < |chain| ==>
                   chain[k] == IfdBuilder(sib[k].identity, sib[k].byteOrder, FilterEntries(s, sib[k], 0).value)
    decreases SizeOpt(root)
  {
    if root.Some? {
      var ifd := root.value;
      var rest := Siblings(ifd.next);
      ChainMirrorsSiblings(s, ifd.next);
      var sib := Siblings(root);
      assert sib == [ifd] + rest;
      assert forall k :: 1 <= k < |sib| ==> sib[k] == rest[k - 1];
      if FilterEntries(s, ifd, 0).Err? {
        assert !FilterEntries(s, sib[0], 0).Ok?;
      } else if FilterChain(s, ifd.next).Err? {
        var k :| 0 <= k < |rest| && !FilterEntries(s, rest[k], 0).Ok?;
        assert sib[k + 1] == rest[k];
      } else {
        assert forall k :: 0 <= k < |sib| ==> FilterEntries(s, sib[k], 0).Ok?;
      }
    }
  }

  /** The first builder of a rebuilt chain is the root's, with the root's identity and byte order. */
  lemma FirstBuilderIsRoots(s: ExifScrubber, root: Ifd)
    requires FilterChain(s, Some(root)).Ok?
    ensures |FilterChain(s, Some(root)).value| >= 1
    ensures FilterChain(s, Some(root)).value[0].identity == root.identity
    ensures FilterChain(s, Some(root)).value[0].byteOrder == root.byteOrder
  {
    ChainMirrorsSiblings(s, Some(root));
  }

  // ---------------------------------------------------------------------------
  // One directory

  /** The positions, from `i` on, of the entries the rebuilt directory keeps, in increasing order. */
  function KeptFrom(s: ExifScrubber, ifd: Ifd, i: nat): seq<nat>
    decreases |ifd.entries| - i
  {
    if i >= |ifd.entries| then []
    else (if Kept(s, ifd.entries[i]) then [i] else []) + KeptFrom(s, ifd, i + 1)
  }

  lemma {:induction false} KeptFromMembership(s: ExifScrubber, ifd: Ifd, i: nat, j: int)
    ensures j in KeptFrom(s, ifd, i) <==> i <= j < |ifd.entries| && Kept(s, ifd.entries[j])
    decreases |ifd.entries| - i
  {
    if i < |ifd.entries| {
      KeptFromMembership(s, ifd, i + 1, j);
    }
  }

  lemma {:induction false} KeptFromIncreasing(s: ExifScrubber, ifd: Ifd, i: nat)
    ensures forall a :: 0 <= a < |KeptFrom(s, ifd, i)| ==> i <= KeptFrom(s, ifd, i)[a] < |ifd.entries|
    ensures forall a, b :: 0 <= a < b < |KeptFrom(s, ifd, i)| ==> KeptFrom(s, ifd, i)[a] < KeptFrom(s, ifd, i)[b]
    decreases |ifd.entries| - i
  {
    if i < |ifd.entries| {
      KeptFromIncreasing(s, ifd, i + 1);
    }
  }

  /** Output tag `t` is what the rebuild makes of entry `j` of `ifd`. */
  ghost predicate RebuiltFrom(s: ExifScrubber, ifd: Ifd, j: nat, t: BuilderTag)
    requires j < |ifd.entries|
  {
    var e := ifd.entries[j];
    if IsPointer(e) then
      t.ChildTag? && FilterChain(s, FirstChildAt(ifd.children, j)) == Ok(t.childIb)
    else
      e.rawBytes.Some?
      && t == ValueTag(ifd.identity.unindexedPath, e.tagId, e.tagType, e.rawBytes.value, ifd.byteOrder)
  }

  /**
   * The rebuilt tags of a directory are its kept entries, in their original order:
   * the k-th tag is rebuilt from the k-th kept position.
   */
  lemma {:induction false} EntriesCorrespond(s: ExifScrubber, ifd: Ifd, i: nat)
    requires i <= |ifd.entries|
    ensures FilterEntries(s, ifd, i).Ok? ==>
              var tags, kept := FilterEntries(s, ifd, i).value, KeptFrom(s, ifd, i);
              && |tags| == |kept|
              && forall k :: 0 <= k < |tags| ==> kept[k] < |ifd.entries| && RebuiltFrom(s, ifd, kept[k], tags[k])
    decreases |ifd.entries| - i
  {
    if i < |ifd.entries| {
      EntriesCorrespond(s, ifd, i + 1);
      var e := ifd.entries[i];
      if FilterEntries(s, ifd, i).Ok? {
        if !Kept(s, e) {
          assert FilterEntries(s, ifd, i) == FilterEntries(s, ifd, i + 1);
          assert KeptFrom(s, ifd, i) == KeptFrom(s, ifd, i + 1);
        } else {
          var t := if IsPointer(e) then ChildTag(FilterChain(s, FirstChildAt(ifd.children, i)).value)
                   else ValueTag(ifd.identity.unindexedPath, e.tagId, e.tagType, e.rawBytes.value, ifd.byteOrder);
          assert FilterEntries(s, ifd, i) == Prepend(t, FilterEntries(s, ifd, i + 1));
          assert RebuiltFrom(s, ifd, i, t);
          assert KeptFrom(s, ifd, i) == [i] + KeptFrom(s, ifd, i + 1);
          PrependCorrespond(s, ifd, i, t, FilterEntries(s, ifd, i + 1).value, KeptFrom(s, ifd, i + 1));
        }
      }
    }
  }

  lemma PrependCorrespond(s: ExifScrubber, ifd: Ifd, i: nat, t: BuilderTag, tags: seq<BuilderTag>, kept: seq<nat>)
    requires i < |ifd.entries| && RebuiltFrom(s, ifd, i, t)
    requires |tags| == |kept|
    requires forall k :: 0 <= k < |tags| ==> kept[k] < |ifd.entries| && RebuiltFrom(s, ifd, kept[k], tags[k])
    ensures forall k :: 0 <= k < |tags| + 1 ==>
              ([i] + kept)[k] < |ifd.entries| && RebuiltFrom(s, ifd, ([i] + kept)[k], ([t] + tags)[k])
  {
    forall k | 0 <= k < |tags| + 1
      ensures ([i] + kept)[k] < |ifd.entries| && RebuiltFrom(s, ifd, ([i] + kept)[k], ([t] + tags)[k])
    {
      if k > 0 {
        assert ([i] + kept)[k] == kept[k - 1] && ([t] + tags)[k] == tags[k - 1];
      }
    }
  }

  /** Thumbnail offset and size entries are dropped, whatever the allow-lists hold. */
  lemma ThumbnailsDropped(s: ExifScrubber, ifd: Ifd, j: nat)
    requires j < |ifd.entries| && (ifd.entries[j].isThumbnailOffset || ifd.entries[j].isThumbnailSize)
    ensures j !in KeptFrom(s, ifd, 0)
  {
    KeptFromMembership(s, ifd, 0, j);
  }

  /** Every pointer entry that is no thumbnail marker is kept, whatever the allow-lists hold. */
  lemma PointersKept(s: ExifScrubber, ifd: Ifd, j: nat)
    requires j < |ifd.entries| && ifd.entries[j].childIfdPath != ""
    requires !ifd.entries[j].isThumbnailOffset && !ifd.entries[j].isThumbnailSize
    ensures j in KeptFrom(s, ifd, 0)
  {
    KeptFromMembership(s, ifd, 0, j);
  }

  /** A scalar entry is kept exactly when its id or its exact path is on an allow-list. */
  lemma ScalarKeptIffAllowed(s: ExifScrubber, ifd: Ifd, j: nat)
    requires j < |ifd.entries| && ifd.entries[j].childIfdPath == ""
    requires !ifd.entries[j].isThumbnailOffset && !ifd.entries[j].isThumbnailSize
    ensures j in KeptFrom(s, ifd, 0)
            <==> (ifd.entries[j].tagId in s.includedTagIds
                  || ifd.entries[j].ifdPath + "/" + ifd.entries[j].tagName in s.includedTagPaths)
  {
    KeptFromMembership(s, ifd, 0, j);
  }

  /** With every id present on the id list, each entry but the thumbnail markers is kept. */
  lemma AllIdsKeepEverything(s: ExifScrubber, ifd: Ifd, j: nat)
    requires forall k :: 0 <= k < |ifd.entries| ==> ifd.entries[k].tagId in s.includedTagIds
    requires j < |ifd.entries|
    ensures j in KeptFrom(s, ifd, 0) <==> !IsThumbnail(ifd.entries[j])
  {
    KeptFromMembership(s, ifd, 0, j);
  }

  /** A pointer whose position no child records is rebuilt as a nil builder, without an error. */
  lemma UnmatchedPointerGivesNilBuilder(s: ExifScrubber, ifd: Ifd, j: nat, t: BuilderTag)
    requires j < |ifd.entries| && ifd.entries[j].childIfdPath != ""
    requires forall k :: 0 <= k < |ifd.children| ==> ifd.children[k].parentTagIndex != j
    requires RebuiltFrom(s, ifd, j, t)
    ensures t == ChildTag([])
  {
  }

  // ---------------------------------------------------------------------------
  // The whole tree

  /**
   * How go-exif names entries: an entry carries its directory's path, and its
   * name is what the tag index gives for that path and id.
   */
  ghost predicate WellNamed(nameOf: (string, u16) -> string, ifd: Ifd)
    decreases ifd
  {
    && (forall k :: 0 <= k < |ifd.entries| ==>
          ifd.entries[k].ifdPath == ifd.identity.unindexedPath
          && ifd.entries[k].tagName == nameOf(ifd.entries[k].ifdPath, ifd.entries[k].tagId))
    && (forall c | c in ifd.children :: WellNamed(nameOf, c))
    && (ifd.next.Some? ==> WellNamed(nameOf, ifd.next.value))
  }

  /**
   * The check the fixture tests run on the re-parsed output, for one tag: a scalar
   * is on the id list or its "<ifd-path>/<tag-name>" is on the path list; a child
   * builder chain passes when all its builders do.
   */
  ghost predicate TagAllowed(s: ExifScrubber, nameOf: (string, u16) -> string, t: BuilderTag)
    decreases t
  {
    match t
    case ValueTag(path, id, _, _, _) => id in s.includedTagIds || path + "/" + nameOf(path, id) in s.includedTagPaths
    case ChildTag(chain) => forall b | b in chain :: BuilderAllowed(s, nameOf, b)
  }

  ghost predicate BuilderAllowed(s: ExifScrubber, nameOf: (string, u16) -> string, b: IfdBuilder)
    decreases b
  {
    forall t | t in b.tags :: TagAllowed(s, nameOf, t)
  }

  /** Every scalar left anywhere in the rebuilt tree is allowed by id or by path. */
  lemma {:induction false} ChainScalarsAllowed(s: ExifScrubber, nameOf: (string, u16) -> string, root: Option<Ifd>)
    requires root.Some? ==> WellNamed(nameOf, root.value)
    ensures FilterChain(s, root).Ok? ==> forall b | b in FilterChain(s, root).value :: BuilderAllowed(s, nameOf, b)
    decreases SizeOpt(root), 1, 0
  {
    if root.Some? {
      var ifd := root.value;
      EntriesScalarsAllowed(s, nameOf, ifd, 0);
      ChainScalarsAllowed(s, nameOf, ifd.next);
    }
  }

  lemma {:induction false} EntriesScalarsAllowed(s: ExifScrubber, nameOf: (string, u16) -> string, ifd: Ifd, i: nat)
    requires WellNamed(nameOf, ifd)
    requires i <= |ifd.entries|
    ensures FilterEntries(s, ifd, i).Ok? ==> forall t | t in FilterEntries(s, ifd, i).value :: TagAllowed(s, nameOf, t)
    decreases Size(ifd), 0, |ifd.entries| - i
  {
    if i < |ifd.entries| {
      EntriesScalarsAllowed(s, nameOf, ifd, i + 1);
      var e := ifd.entries[i];
      if !IsThumbnail(e) && IsPointer(e) {
        var child := FirstChildAt(ifd.children, i);
        FirstChildSmaller(ifd, i);
        if child.Some? {
          assert child.value in ifd.children;
        }
        ChainScalarsAllowed(s, nameOf, child);
      }
    }
  }

  /** Every directory that the rebuilt tree reaches has its scalar values readable. */
  ghost predicate Readable(ifd: Ifd)
    decreases ifd
  {
    && (forall k :: 0 <= k < |ifd.entries| ==> ifd.entries[k].rawBytes.Some? || IsPointer(ifd.entries[k]))
    && (forall c | c in ifd.children :: Readable(c))
    && (ifd.next.Some? ==> Readable(ifd.next.value))
  }

  /** When every scalar value can be read, the rebuild cannot fail. */
  lemma {:induction false} ReadableChainRebuilds(s: ExifScrubber, root: Option<Ifd>)
    requires root.Some? ==> Readable(root.value)
    ensures FilterChain(s, root).Ok?
    decreases SizeOpt(root), 1, 0
  {
    if root.Some? {
      ReadableEntriesRebuild(s, root.value, 0);
      ReadableChainRebuilds(s, root.value.next);
    }
  }

  lemma {:induction false} ReadableEntriesRebuild(s: ExifScrubber, ifd: Ifd, i: nat)
    requires Readable(ifd)
    requires i <= |ifd.entries|
    ensures FilterEntries(s, ifd, i).Ok?
    decreases Size(ifd), 0, |ifd.entries| - i
  {
    if i < |ifd.entries| {
      ReadableEntriesRebuild(s, ifd, i + 1);
      var e := ifd.entries[i];
      if !IsThumbnail(e) && IsPointer(e) {
        var child := FirstChildAt(ifd.children, i);
        FirstChildSmaller(ifd, i);
        if child.Some? {
          assert child.value in ifd.children;
        }
        ReadableChainRebuilds(s, child);
      }
    }
  }
}
