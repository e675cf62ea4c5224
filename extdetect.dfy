/**
 * The file-extension builder: a name's extension is its last "."-part, grown
 * leftward over further "."-parts while the grown suffix is still the start of a
 * known combination such as ".tar.gz". A name without any "." gets the
 * extension that MIME sniffing of the content suggests; the sniffer is a
 * parameter.
 */
module ExtDetect {
  import opened GoStrings
  import ExifScrubber

  const KnownCombinations: seq<string> := [".tar.gz", ".tar.xz"]

  /** `suffix` is the beginning of some known combination. */
  predicate StartsCombination(suffix: string)
  {
    exists j :: 0 <= j < |KnownCombinations| && suffix <= KnownCombinations[j]
  }

  /**
   * Where the extension finally starts, when it currently starts at the dot
   * `cur`: it moves to the dot before whenever the suffix from there starts a
   * known combination, and stops at the first dot of the name.
   */
  function Grow(name: string, cur: nat): (r: nat)
    requires cur < |name| && name[cur] == '.'
    ensures r <= cur && name[r] == '.'
    decreases cur
  {
    var next := LastIndexOf(name[..cur], '.');
    if next == -1 || !StartsCombination(name[next..]) then cur
    else Grow(name, next)
  }

  /** The extension of `name`, given the extension `detected` by sniffing the content. */
  function ExtensionOf(name: string, detected: string): string
  {
    var last := LastIndexOf(name, '.');
    if last == -1 then detected else name[Grow(name, last)..]
  }

  /** BuildFileExtension: the nested `for stillBuilding` loop over the known combinations. */
  method BuildFileExtension(fileData: seq<ExifScrubber.byte>, name: string, detect: seq<ExifScrubber.byte> -> string) returns (ext: string)
    ensures ext == ExtensionOf(name, detect(fileData))
  {
    var curExtIdx := LastIndexOf(name, '.');
    if curExtIdx == -1 {
      return detect(fileData);
    }
    var nextExtIdx := LastIndexOf(name[..curExtIdx], '.');
    if nextExtIdx == -1 {
      return name[curExtIdx..];
    }
    ghost var target := Grow(name, curExtIdx);
    var stillBuilding := true;
    while stillBuilding
      invariant 0 <= nextExtIdx < curExtIdx < |name| && name[curExtIdx] == '.'
      invariant nextExtIdx == LastIndexOf(name[..curExtIdx], '.')
      invariant Grow(name, curExtIdx) == target
      invariant !stillBuilding ==> !StartsCombination(name[nextExtIdx..])
      decreases 2 * curExtIdx + (if stillBuilding then 1 else 0)
    {
      stillBuilding := false;
      ghost var passStart := curExtIdx;
      for j := 0 to |KnownCombinations|
        invariant 0 <= nextExtIdx < curExtIdx <= passStart && name[curExtIdx] == '.'
        invariant nextExtIdx == LastIndexOf(name[..curExtIdx], '.')
        invariant Grow(name, curExtIdx) == target
        invariant stillBuilding <==> curExtIdx < passStart
        invariant !stillBuilding ==> forall i :: 0 <= i < j ==> !(name[nextExtIdx..] <= KnownCombinations[i])
      {
        var comb := KnownCombinations[j];
        if !(name[nextExtIdx..] <= comb) {
          continue;
        }
        GrowMoves(name, curExtIdx, j);
        stillBuilding := true;
        curExtIdx := nextExtIdx;
        nextExtIdx := LastIndexOf(name[..curExtIdx], '.');
        if nextExtIdx == -1 {
          return name[curExtIdx..];
        }
      }
    }
    GrowStops(name, curExtIdx);
    return name[curExtIdx..];
  }

  /** When the suffix from the previous dot starts combination `j`, the extension grows to that dot. */
  lemma GrowMoves(name: string, cur: nat, j: nat)
    requires cur < |name| && name[cur] == '.' && j < |KnownCombinations|
    requires var next := LastIndexOf(name[..cur], '.'); next >= 0 && name[next..] <= KnownCombinations[j]
    ensures var next := LastIndexOf(name[..cur], '.'); name[next] == '.' && Grow(name, cur) == Grow(name, next)
  {
    var next := LastIndexOf(name[..cur], '.');
    assert name[..cur][next] == name[next];
  }

  /** When the suffix from the previous dot starts no combination, the extension stays. */
  lemma GrowStops(name: string, cur: nat)
    requires cur < |name| && name[cur] == '.'
    requires var next := LastIndexOf(name[..cur], '.'); next >= 0 && !StartsCombination(name[next..])
    ensures Grow(name, cur) == cur
  {
  }

  // ---------------------------------------------------------------------------
  // Properties

  /** A name without a dot takes the sniffed extension. */
  lemma NoDotUsesDetected(name: string, detected: string)
    requires '.' !in name
    ensures ExtensionOf(name, detected) == detected
  {
    assert LastIndexOf(name, '.') == -1;
  }

  /** A name with exactly one dot takes the suffix from that dot. */
  lemma OneDotIsLastPart(name: string, i: nat, detected: string)
    requires i < |name| && name[i] == '.'
    requires '.' !in name[..i] && '.' !in name[i + 1..]
    ensures ExtensionOf(name, detected) == name[i..]
  {
    LastIndexAt(name, '.', i);
  }

  /** A grown extension starts a known combination. */
  lemma {:induction false} GrowStartsCombination(name: string, cur: nat)
    requires cur < |name| && name[cur] == '.'
    ensures Grow(name, cur) < cur ==> StartsCombination(name[Grow(name, cur)..])
    decreases cur
  {
    var next := LastIndexOf(name[..cur], '.');
    if next != -1 && StartsCombination(name[next..]) {
      assert name[..cur][next] == name[next];
      GrowStartsCombination(name, next);
    }
  }

  /**
   * A dotted name's extension is a suffix of the name that starts with a dot
   * and ends with the name's last extension; if it holds two dots or more, it
   * starts a known combination.
   */
  lemma DottedExtension(name: string, detected: string)
    requires '.' in name
    ensures var r := ExtensionOf(name, detected); var last := LastIndexOf(name, '.');
      && 0 <= last
      && |name| - last <= |r| <= |name|
      && r == name[|name| - |r|..]
      && r[0] == '.'
      && r[|r| - (|name| - last)..] == name[last..]
      && ('.' in r[1..] ==> StartsCombination(r))
  {
    var last := LastIndexOf(name, '.');
    var start := Grow(name, last);
    var r := name[start..];
    GrowStartsCombination(name, last);
    assert r[|r| - (|name| - last)..] == name[last..];
    if start == last {
      assert r[1..] == name[last + 1..];
    }
  }

  // ---------------------------------------------------------------------------
  // The examples of the extension tests

  lemma ExampleNoDot(detected: string)
    ensures ExtensionOf("foo", detected) == detected
  {
    NoDotUsesDetected("foo", detected);
  }

  lemma ExamplesOneDot(detected: string)
    ensures ExtensionOf("foo.txt", detected) == ".txt"
    ensures ExtensionOf("foo.gz", detected) == ".gz"
    ensures ExtensionOf("foo.tar", detected) == ".tar"
  {
    OneDotIsLastPart("foo.txt", 3, detected);
    OneDotIsLastPart("foo.gz", 3, detected);
    OneDotIsLastPart("foo.tar", 3, detected);
  }

  lemma ExampleTarGz(detected: string)
    ensures ExtensionOf("foo.tar.gz", detected) == ".tar.gz"
  {
    assert StartsCombination(".tar.gz") by { assert ".tar.gz" <= KnownCombinations[0]; }
    LastIndexAt("foo.tar.gz", '.', 7);
    LastIndexAt("foo.tar", '.', 3);
    assert LastIndexOf("foo", '.') == -1;
    assert "foo.tar.gz"[..7] == "foo.tar" && "foo.tar.gz"[3..] == ".tar.gz" && "foo.tar.gz"[..3] == "foo";
    assert Grow("foo.tar.gz", 3) == 3;
  }

  lemma ExampleTarXz(detected: string)
    ensures ExtensionOf("foo.tar.xz", detected) == ".tar.xz"
  {
    assert StartsCombination(".tar.xz") by { assert ".tar.xz" <= KnownCombinations[1]; }
    LastIndexAt("foo.tar.xz", '.', 7);
    LastIndexAt("foo.tar", '.', 3);
    assert LastIndexOf("foo", '.') == -1;
    assert "foo.tar.xz"[..7] == "foo.tar" && "foo.tar.xz"[3..] == ".tar.xz" && "foo.tar.xz"[..3] == "foo";
    assert Grow("foo.tar.xz", 3) == 3;
  }

  /** An unknown combination keeps only its last part. */
  lemma ExampleUnknownCombination(detected: string)
    ensures ExtensionOf("foo.jpg.zip", detected) == ".zip"
  {
    LastIndexAt("foo.jpg.zip", '.', 7);
    LastIndexAt("foo.jpg", '.', 3);
    assert "foo.jpg.zip"[..7] == "foo.jpg" && "foo.jpg.zip"[3..] == ".jpg.zip";
    assert Grow("foo.jpg.zip", 7) == 7;
  }

  /** A known combination is found behind any number of other parts. */
  lemma ExampleManyDots(detected: string)
    ensures ExtensionOf("foo.jpg.zip.tar.gz", detected) == ".tar.gz"
  {
    var long := "foo.jpg.zip.tar.gz";
    ManyDotsIndices();
    assert long[11..] == KnownCombinations[0];
    GrowMoves(long, 15, 0);
    ManyDotsStop();
    GrowStops(long, 11);
  }

  lemma ManyDotsIndices()
    ensures var long := "foo.jpg.zip.tar.gz";
      && LastIndexOf(long, '.') == 15
      && LastIndexOf(long[..15], '.') == 11
      && LastIndexOf(long[..11], '.') == 7
  {
    var long := "foo.jpg.zip.tar.gz";
    assert long[16..] == "gz";
    LastIndexAt(long, '.', 15);
    assert long[..15] == "foo.jpg.zip.tar" && "foo.jpg.zip.tar"[12..] == "tar";
    LastIndexAt("foo.jpg.zip.tar", '.', 11);
    assert long[..11] == "foo.jpg.zip" && "foo.jpg.zip"[8..] == "zip";
    LastIndexAt("foo.jpg.zip", '.', 7);
  }

  lemma ManyDotsStop()
    ensures !StartsCombination("foo.jpg.zip.tar.gz"[7..])
  {
    assert "foo.jpg.zip.tar.gz"[7..][1] == 'z';
  }

  /**
   * The grown suffix needs only to start a combination, so a truncated one is
   * kept whole: "foo.tar.g" gets ".tar.g", not ".g".
   */
  lemma ExampleTruncatedCombination(detected: string)
    ensures ExtensionOf("foo.tar.g", detected) == ".tar.g"
  {
    assert StartsCombination(".tar.g") by { assert ".tar.g" <= KnownCombinations[0]; }
    LastIndexAt("foo.tar.g", '.', 7);
    LastIndexAt("foo.tar", '.', 3);
    assert LastIndexOf("foo", '.') == -1;
    assert "foo.tar.g"[..7] == "foo.tar" && "foo.tar.g"[3..] == ".tar.g" && "foo.tar.g"[..3] == "foo";
    assert Grow("foo.tar.g", 3) == 3;
    assert Grow("foo.tar.g", 7) == 3;
  }
}
