/** The directory tree of 2022 day 7: files with a size, directories that own
    their children in insertion order, and the recursive size of a directory. */
module FileTree {

  /** `File`: a name and a size. */
  datatype File = File(name: string, size: nat)

  /** A child of a directory: a file, or a directory that was moved into it
      together with everything it held. The source keeps both behind one boxed
      trait object and tells them apart by their run-time type. */
  datatype Inode = FileNode(file: File) | DirNode(name: string, inodes: seq<Inode>)

  /** `INode::size`: a file's stored size, or the sum of a directory's children. */
  function Size(node: Inode): nat
    decreases node
  {
    match node
    case FileNode(file) => file.size
    case DirNode(_, inodes) => TotalSize(inodes)
  }

  /** The fold `acc + inode.size()` over the children, starting from 0. */
  function TotalSize(inodes: seq<Inode>): nat
    decreases inodes
  {
    if inodes == [] then 0 else Size(inodes[0]) + TotalSize(inodes[1..])
  }

  /** Appending a child adds its size. */
  lemma {:induction false} TotalSizeAppend(inodes: seq<Inode>, node: Inode)
    ensures TotalSize(inodes + [node]) == TotalSize(inodes) + Size(node)
    decreases |inodes|
  {
    if inodes != [] {
      assert (inodes + [node])[1..] == inodes[1..] + [node];
      TotalSizeAppend(inodes[1..], node);
    }
  }

  /** The sum of the sizes of some files. */
  function FileSizes(files: seq<File>): nat
  {
    if files == [] then 0 else files[0].size + FileSizes(files[1..])
  }

  /** `files()`: the children that are files, in insertion order. */
  function FilesOf(inodes: seq<Inode>): (files: seq<File>)
    ensures |files| <= |inodes|
  {
    if inodes == [] then []
    else (if inodes[0].FileNode? then [inodes[0].file] else []) + FilesOf(inodes[1..])
  }

  /** `directories()`: the children that are directories, in insertion order. */
  function DirectoriesOf(inodes: seq<Inode>): (dirs: seq<Inode>)
    ensures |dirs| <= |inodes|
    ensures forall i :: 0 <= i < |dirs| ==> dirs[i].DirNode?
  {
    if inodes == [] then []
    else (if inodes[0].DirNode? then [inodes[0]] else []) + DirectoriesOf(inodes[1..])
  }

  /** Filtering distributes over concatenation: children added later come later. */
  lemma {:induction false} FilesAppend(a: seq<Inode>, b: seq<Inode>)
    ensures FilesOf(a + b) == FilesOf(a) + FilesOf(b)
  {
    if a == [] {
      assert a + b == b;
    } else {
      var rest := a[1..] + b;
      assert (a + b)[0] == a[0] && (a + b)[1..] == rest;
      FilesAppend(a[1..], b);
      var head := if a[0].FileNode? then [a[0].file] else [];
      assert FilesOf(a + b) == head + FilesOf(rest);
      assert FilesOf(a) == head + FilesOf(a[1..]);
    }
  }

  lemma {:induction false} DirectoriesAppend(a: seq<Inode>, b: seq<Inode>)
    ensures DirectoriesOf(a + b) == DirectoriesOf(a) + DirectoriesOf(b)
  {
    if a == [] {
      assert a + b == b;
    } else {
      var rest := a[1..] + b;
      assert (a + b)[0] == a[0] && (a + b)[1..] == rest;
      DirectoriesAppend(a[1..], b);
      var head := if a[0].DirNode? then [a[0]] else [];
      assert DirectoriesOf(a + b) == head + DirectoriesOf(rest);
      assert DirectoriesOf(a) == head + DirectoriesOf(a[1..]);
    }
  }

  /** Every child is a file or a directory: the two filters split the children. */
  lemma {:induction false} FiltersPartition(inodes: seq<Inode>)
    ensures |FilesOf(inodes)| + |DirectoriesOf(inodes)| == |inodes|
  {
    if inodes != [] {
      FiltersPartition(inodes[1..]);
    }
  }

  /** The size of a directory is the size of its files plus that of its
      subdirectories. */
  lemma {:induction false} SizeSplitsByKind(inodes: seq<Inode>)
    ensures TotalSize(inodes) == FileSizes(FilesOf(inodes)) + TotalSize(DirectoriesOf(inodes))
  {
    if inodes != [] {
      SizeSplitsByKind(inodes[1..]);
      var head := if inodes[0].FileNode? then [inodes[0].file] else [];
      FileSizesConcat(head, FilesOf(inodes[1..]));
      var dirs := if inodes[0].DirNode? then [inodes[0]] else [];
      TotalSizeConcat(dirs, DirectoriesOf(inodes[1..]));
    }
  }

  lemma {:induction false} FileSizesConcat(a: seq<File>, b: seq<File>)
    ensures FileSizes(a + b) == FileSizes(a) + FileSizes(b)
  {
    if a == [] {
      assert a + b == b;
    } else {
      assert (a + b)[1..] == a[1..] + b;
      FileSizesConcat(a[1..], b);
    }
  }

  lemma {:induction false} TotalSizeConcat(a: seq<Inode>, b: seq<Inode>)
    ensures TotalSize(a + b) == TotalSize(a) + TotalSize(b)
  {
    if a == [] {
      assert a + b == b;
    } else {
      assert (a + b)[1..] == a[1..] + b;
      TotalSizeConcat(a[1..], b);
    }
  }

  /** `Directory`: a name and the children it owns, in the order they were added. */
  class Directory {
    var name: string
    var inodes: seq<Inode>

    /** `Directory::new`: empty, so of size 0. */
    constructor (name: string)
      ensures this.name == name && inodes == [] && Size() == 0
    {
      this.name := name;
      inodes := [];
    }

    /** `size()` of the directory. */
    function Size(): nat
      reads this
    {
      TotalSize(inodes)
    }

    /** The directory as a child of another one. */
    function AsInode(): Inode
      reads this
    {
      DirNode(name, inodes)
    }

    function Files(): seq<File>
      reads this
    {
      FilesOf(inodes)
    }

    function Directories(): seq<Inode>
      reads this
    {
      DirectoriesOf(inodes)
    }

    /** `add_file`: the file becomes the last child; the directory grows by its size,
        it is the last of the files and the subdirectories are unchanged. */
    method AddFile(file: File)
      modifies this
      ensures name == old(name) && inodes == old(inodes) + [FileNode(file)]
      ensures Size() == old(Size()) + file.size
      ensures Files() == old(Files()) + [file] && Directories() == old(Directories())
    {
      inodes := inodes + [FileNode(file)];
      TotalSizeAppend(old(inodes), FileNode(file));
      FilesAppend(old(inodes), [FileNode(file)]);
      DirectoriesAppend(old(inodes), [FileNode(file)]);
    }

    /** `add_directory`: the directory, moved in with all it holds, becomes the
        last child; the size grows by the size of that directory. */
    method AddDirectory(dir: Directory)
      requires dir != this
      modifies this
      ensures name == old(name) && inodes == old(inodes) + [old(dir.AsInode())]
      ensures Size() == old(Size()) + old(dir.Size())
      ensures Directories() == old(Directories()) + [old(dir.AsInode())] && Files() == old(Files())
    {
      inodes := inodes + [dir.AsInode()];
      TotalSizeAppend(old(inodes), dir.AsInode());
      FilesAppend(old(inodes), [dir.AsInode()]);
      DirectoriesAppend(old(inodes), [dir.AsInode()]);
    }
  }

  /** The sizes the source expects: 35 for one file, 99 after a second one, and
      132 once a subdirectory holding 33 is added. */
  method SizeExample() returns (sizes: seq<nat>)
    ensures sizes == [35, 99, 132]
  {
    var dir := new Directory("/");
    dir.AddFile(File("foo", 35));
    var first := dir.Size();
    dir.AddFile(File("bar", 64));
    var second := dir.Size();
    var sub := new Directory("a");
    sub.AddFile(File("foobar", 33));
    dir.AddDirectory(sub);
    sizes := [first, second, dir.Size()];
  }
}
