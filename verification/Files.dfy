/** The part of POSIX the log appender uses: a directory of files and one descriptor at a time. */
module Files {

  /** File names and the bytes they name. */
  type Directory = map<string, string>

  /** m' holds under k' exactly what m holds under k, absence included. */
  ghost predicate SameAt(m: Directory, k: string, m': Directory, k': string) {
    (k in m <==> k' in m') && (k in m ==> m[k] == m'[k'])
  }

  /** rename(from, to): replaces the target; does nothing when the source is missing. */
  function Renamed(files: Directory, from: string, to: string): Directory {
    if from in files then (files - {from})[to := files[from]] else files
  }

  /** The file after data is written over position offset. */
  function WriteAt(content: string, offset: nat, data: string): string
    requires offset <= |content|
  {
    content[..offset] + data + (if offset + |data| <= |content| then content[offset + |data|..] else "")
  }

  /** Only the bytes from offset on are replaced, as many as there are in data; the rest stays. */
  lemma WriteAtMeans(content: string, offset: nat, data: string, i: nat)
    requires offset <= |content|
    ensures var r := WriteAt(content, offset, data);
      && |r| == (if offset + |data| > |content| then offset + |data| else |content|)
      && (i < |r| ==> r[i] == if offset <= i < offset + |data| then data[i - offset] else content[i])
  {
  }

  lemma WriteAtEnd(content: string, data: string)
    ensures WriteAt(content, |content|, data) == content + data
  {
    assert content[..|content|] == content;
  }

  /** A directory: file names and the bytes they name. */
  class FileSystem {
    var files: Directory

    constructor (files: Directory)
      ensures this.files == files
    {
      this.files := files;
    }

    method Unlink(name: string)
      modifies this
      ensures files == old(files) - {name}
    {
      files := files - {name};
    }

    method Rename(from: string, to: string)
      modifies this
      ensures files == Renamed(old(files), from, to)
    {
      if from in files {
        var content := files[from];
        files := files - {from};
        files := files[to := content];
      }
    }
  }

  /** A write-only descriptor with its own position: O_CREAT | O_WRONLY, no O_APPEND. */
  class File {
    var isOpen: bool
    var name: string
    var offset: nat

    constructor ()
      ensures !isOpen
    {
      isOpen, name, offset := false, "", 0;
    }

    /** Opens or creates a file, seeks to its end and returns its size. */
    method Open(fs: FileSystem, name: string) returns (size: int)
      modifies this, fs
      ensures isOpen && this.name == name
      ensures fs.files == if name in old(fs.files) then old(fs.files) else old(fs.files)[name := ""]
      ensures size == offset == |fs.files[name]|
    {
      if name !in fs.files {
        fs.files := fs.files[name := ""];
      }
      this.isOpen, this.name := true, name;
      offset := |fs.files[name]|;
      size := offset;
    }

    /** Writes at the current position; -1 when nothing is open. */
    method Write(fs: FileSystem, data: string) returns (written: int)
      requires isOpen ==> name in fs.files && offset <= |fs.files[name]|
      modifies this, fs
      ensures isOpen == old(isOpen) && name == old(name)
      ensures !isOpen ==> written == -1 && fs.files == old(fs.files) && offset == old(offset)
      ensures isOpen ==> written == |data| && offset == old(offset) + |data|
      ensures isOpen ==> fs.files == old(fs.files[name := WriteAt(fs.files[name], offset, data)])
    {
      if isOpen {
        fs.files := fs.files[name := WriteAt(fs.files[name], offset, data)];
        offset := offset + |data|;
        written := |data|;
      } else {
        written := -1;
      }
    }

    method Close()
      modifies this
      ensures !isOpen && name == old(name) && offset == old(offset)
    {
      isOpen := false;
    }
  }
}
