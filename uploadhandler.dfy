/**
 * Naming an upload: the extension of the uploaded file's name, a random stem of
 * the configured length over an alphabet of letters and digits, and the link
 * and save path built from them. Checking whether a name is taken, writing the
 * file and answering the request are outside the model.
 */
module UploadHandler {
  import opened GoStrings
  import opened Configuration

  /** The alphabet of random stems (jaf.go); it has "T" before "S", which changes nothing. */
  const AllowedChars := "0123456789ABCDEFGHIJKLMNOPQRTSUVWXYZabcdefghijklmnopqrstuvwxyz"

  /** splitFileName: the name cut before its last dot; no dot gives an empty extension. */
  function SplitFileName(name: string): (r: (string, string))
    ensures '.' !in name ==> r == (name, "")
    ensures '.' in name ==> r.0 + r.1 == name && |r.1| >= 1 && r.1[0] == '.' && '.' !in r.1[1..]
  {
    var extIndex := LastIndexOf(name, '.');
    if extIndex == -1 then (name, "")
    else
      assert name[extIndex..][1..] == name[extIndex + 1..];
      (name[..extIndex], name[extIndex..])
  }

  /** createRandomFileName: `length` characters, each drawn from the alphabet. */
  method CreateRandomFileName(length: nat) returns (name: string)
    ensures |name| == length
    ensures forall k :: 0 <= k < |name| ==> name[k] in AllowedChars
  {
    var chars := new char[length];
    for i := 0 to length
      invariant forall k :: 0 <= k < i ==> chars[k] in AllowedChars
    {
      var index :| 0 <= index < |AllowedChars|;
      chars[i] := AllowedChars[index];
    }
    name := chars[..];
  }

  /**
   * generateLink for one candidate name: the link is the link prefix and the
   * file name, the save path is the file directory and the same file name, and
   * the file name is a random stem followed by the extension.
   */
  method GenerateLink(config: Config, fileExtension: string) returns (link: string, savePath: string)
    requires config.linkLength >= 0
    ensures |link| >= |config.linkPrefix| && link[..|config.linkPrefix|] == config.linkPrefix
    ensures var fileName := link[|config.linkPrefix|..];
      && savePath == config.fileDir + fileName
      && |fileName| == config.linkLength + |fileExtension|
      && fileName[config.linkLength..] == fileExtension
      && (forall k :: 0 <= k < config.linkLength ==> fileName[k] in AllowedChars)
  {
    var fileStem := CreateRandomFileName(config.linkLength);
    var fullFileName := fileStem + fileExtension;
    savePath := config.fileDir + fullFileName;
    link := config.linkPrefix + fullFileName;
    assert link[|config.linkPrefix|..] == fullFileName;
    assert fullFileName[..config.linkLength] == fileStem;
  }

  /** The naming part of ServeHTTP: the link keeps the extension after the upload's last dot. */
  method UploadLink(config: Config, uploadName: string) returns (link: string)
    requires config.linkLength >= 0
    ensures |link| == |config.linkPrefix| + config.linkLength + |SplitFileName(uploadName).1|
    ensures link[..|config.linkPrefix|] == config.linkPrefix
    ensures link[|config.linkPrefix| + config.linkLength..] == SplitFileName(uploadName).1
  {
    var (_, fileExtension) := SplitFileName(uploadName);
    var savePath;
    link, savePath := GenerateLink(config, fileExtension);
    assert link[|config.linkPrefix|..][config.linkLength..] == link[|config.linkPrefix| + config.linkLength..];
  }

  // ---------------------------------------------------------------------------
  // Properties

  /** The split at the last dot is the only split whose extension is a dot and no further dot. */
  lemma SplitFileNameUnique(name: string, stem: string, ext: string)
    requires stem + ext == name && |ext| >= 1 && ext[0] == '.' && '.' !in ext[1..]
    ensures SplitFileName(name) == (stem, ext)
  {
    var i := |stem|;
    assert name[i] == '.';
    assert name[i + 1..] == ext[1..];
    LastIndexAt(name, '.', i);
    assert name[..i] == stem && name[i..] == ext;
  }
}
