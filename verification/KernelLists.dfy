/** Kernel list files: the kernels they name, read and merged in order. Bytes are written as characters. */
module KernelLists {
  import opened PathBuffers
  import opened FileSystems

  const KERNEL_LIST_MAGIC := "#@dill\n"
  const KERNEL_MAGIC := [0x90 as char, 0xAB as char, 0xCD as char, 0xEF as char]
  const BYTECODE_MAGIC := [0x33 as char, 0x43 as char, 0x42 as char, 0x44 as char]

  predicate IsKernel(bytes: string)
  {
    KERNEL_MAGIC <= bytes || BYTECODE_MAGIC <= bytes
  }

  predicate StartsWith(bytes: string, a: int, b: int, c: int, d: int)
  {
    |bytes| >= 4 && bytes[0] as int == a && bytes[1] as int == b && bytes[2] as int == c && bytes[3] as int == d
  }

  /** A kernel is told by its first four bytes. */
  lemma KernelIsToldByMagic(bytes: string)
    ensures IsKernel(bytes) <==> StartsWith(bytes, 0x90, 0xAB, 0xCD, 0xEF) || StartsWith(bytes, 0x33, 0x43, 0x42, 0x44)
  {
    if |bytes| >= 4 {
      assert bytes == [bytes[0], bytes[1], bytes[2], bytes[3]] + bytes[4..];
    }
  }

  // ---------- lines ----------

  function FirstNewline(text: string): (n: nat)
    ensures n <= |text| && '\n' !in text[..n] && (n < |text| ==> text[n] == '\n')
    ensures '\n' !in text ==> n == |text|
  {
    if text == "" || text[0] == '\n' then 0
    else
      var n := FirstNewline(text[1..]);
      assert text[..n + 1] == [text[0]] + text[1..][..n];
      n + 1
  }

  lemma {:induction false} FirstNewlineIs(text: string, n: nat)
    requires n < |text| && '\n' !in text[..n] && text[n] == '\n'
    ensures FirstNewline(text) == n
  {
    if n > 0 {
      assert text[0] in text[..n];
      assert forall c :: c in text[1..][..n - 1] ==> c in text[..n];
      FirstNewlineIs(text[1..], n - 1);
    }
  }

  /** The newline-terminated lines; what follows the last newline is not one. */
  function Lines(text: string): (ls: seq<string>)
    decreases |text|
  {
    var n := FirstNewline(text);
    if n == |text| then [] else [text[..n]] + Lines(text[n + 1..])
  }

  lemma LinesCons(first: string, text: string)
    requires '\n' !in first
    ensures Lines(first + "\n" + text) == [first] + Lines(text)
  {
    var whole := first + "\n" + text;
    assert whole[..|first|] == first && whole[|first|] == '\n' && whole[|first| + 1..] == text;
    FirstNewlineIs(whole, |first|);
  }

  function Unlines(ls: seq<string>): (text: string)
  {
    if ls == [] then "" else ls[0] + "\n" + Unlines(ls[1..])
  }

  /** Terminated lines are read back exactly, and an unterminated rest is ignored. */
  lemma {:induction false} LinesOfUnlines(ls: seq<string>, rest: string)
    requires '\n' !in rest && forall i :: 0 <= i < |ls| ==> '\n' !in ls[i]
    ensures Lines(Unlines(ls) + rest) == ls
  {
    if ls == [] {
      assert Unlines(ls) + rest == rest;
    } else {
      hide Lines, Unlines;
      LinesOfUnlines(ls[1..], rest);
      LinesCons(ls[0], Unlines(ls[1..]) + rest);
      UnlinesCons(ls, rest);
      assert ls == [ls[0]] + ls[1..];
    }
  }

  lemma UnlinesCons(ls: seq<string>, rest: string)
    requires ls != []
    ensures Unlines(ls) + rest == ls[0] + "\n" + (Unlines(ls[1..]) + rest)
  {
  }

  // ---------- what a list stands for ----------

  /** A path up to its last separator; all of it when it has none. */
  function DirName(uri: string): (d: string)
    ensures d <= uri && (d == uri || (d != "" && d[|d| - 1] == '/'))
  {
    var k := BaseLength(uri);
    if k == 0 then uri else uri[..k]
  }

  /** Where a list's relative names start. */
  function ListDirectory(uri: string): (d: string)
    ensures d <= uri && (d == "" || d[|d| - 1] == '/')
  {
    if DirName(uri) == uri then "" else DirName(uri)
  }

  function Resolved(dir: string, name: string): (path: string)
  {
    if name != "" && name[0] == '/' then name else dir + name
  }

  type Files = map<string, string>

  /** The file a line names: the line ends at a NUL, and relative names start at the list's directory. */
  function PathOf(dir: string, line: string): (path: string)
  {
    Resolved(dir, CString(line))
  }

  /** A list names kernels beside itself, or anywhere by their absolute paths. */
  lemma NamesAreBesideTheList(dir: string, file: string, name: string)
    requires (dir == "" || dir[|dir| - 1] == '/') && file != "" && '/' !in file && '\0' !in name
    ensures PathOf(ListDirectory(dir + file), name) == if "/" <= name then name else dir + name
  {
    if dir != "" {
      BaseLengthOfChild(dir, file);
      assert (dir + file)[..|dir|] == dir;
    } else {
      assert dir + file == file;
    }
  }

  predicate GoodLine(files: Files, dir: string, line: string)
  {
    PathOf(dir, line) in files && IsKernel(files[PathOf(dir, line)])
  }

  ghost predicate AllGood(files: Files, dir: string, lines: seq<string>)
  {
    forall i :: 0 <= i < |lines| ==> GoodLine(files, dir, lines[i])
  }

  /** The kernels named by the lines, one after the other. */
  ghost function Concatenation(files: Files, dir: string, lines: seq<string>): (bytes: string)
    requires AllGood(files, dir, lines)
  {
    if lines == [] then ""
    else
      assert GoodLine(files, dir, lines[|lines| - 1]);
      Concatenation(files, dir, lines[..|lines| - 1]) + files[PathOf(dir, lines[|lines| - 1])]
  }

  ghost function TotalSize(files: Files, dir: string, lines: seq<string>): (n: nat)
    requires AllGood(files, dir, lines)
  {
    if lines == [] then 0
    else
      assert GoodLine(files, dir, lines[|lines| - 1]);
      TotalSize(files, dir, lines[..|lines| - 1]) + |files[PathOf(dir, lines[|lines| - 1])]|
  }

  lemma {:induction false} SizeIsTotal(files: Files, dir: string, lines: seq<string>)
    requires AllGood(files, dir, lines)
    ensures |Concatenation(files, dir, lines)| == TotalSize(files, dir, lines)
  {
    if lines != [] {
      SizeIsTotal(files, dir, lines[..|lines| - 1]);
    }
  }

  // ---------- the linked list ----------

  class KernelIRNode {
    const kernelIr: string
    var next: KernelIRNode?

    constructor (kernelIr: string)
      ensures this.kernelIr == kernelIr && next == null
    {
      this.kernelIr := kernelIr;
      next := null;
    }
  }

  /** The nodes reached from the head, in order. */
  ghost predicate Linked(nodes: seq<KernelIRNode>)
    reads nodes
  {
    && (forall i :: 0 <= i < |nodes| ==> nodes[i].next == if i + 1 < |nodes| then nodes[i + 1] else null)
    && (forall i, j :: 0 <= i < j < |nodes| ==> nodes[i] != nodes[j])
  }

  ghost function Flatten(nodes: seq<KernelIRNode>): (bytes: string)
  {
    if nodes == [] then "" else Flatten(nodes[..|nodes| - 1]) + nodes[|nodes| - 1].kernelIr
  }

  /** What became of one line of a list. */
  datatype Taken = Accepted | NotFound | NotKernel

  class KernelIRList {
    var head: KernelIRNode?
    var tail: KernelIRNode?
    ghost var nodes: seq<KernelIRNode>
    // Nodes that were deleted.
    ghost var freed: set<KernelIRNode>

    ghost predicate Valid()
      reads this, nodes
    {
      && Linked(nodes)
      && head == (if nodes == [] then null else nodes[0])
      && (nodes != [] ==> tail == nodes[|nodes| - 1])
      && (forall i :: 0 <= i < |nodes| ==> nodes[i] !in freed)
    }

    constructor ()
      ensures Valid() && nodes == [] && freed == {} && tail == null
    {
      head, tail, nodes, freed := null, null, [], {};
    }

    method Add(node: KernelIRNode)
      requires Valid() && node !in nodes && node.next == null && node !in freed
      modifies this, tail
      ensures Valid() && nodes == old(nodes) + [node] && freed == old(freed) && tail == node
    {
      if head == null {
        head := node;
      } else {
        tail.next := node;
      }
      tail := node;
      nodes := nodes + [node];
    }

    /** One buffer holding the bytes of all nodes in order. */
    method Merge() returns (bytes: array<char>, size: nat)
      requires Valid()
      ensures fresh(bytes) && bytes[..] == Flatten(nodes) && size == bytes.Length
    {
      size := 0;
      var node := head;
      ghost var i := 0;
      while node != null
        invariant 0 <= i <= |nodes| && node == (if i < |nodes| then nodes[i] else null)
        invariant size == |Flatten(nodes[..i])|
        decreases |nodes| - i
      {
        assert nodes[..i + 1][..i] == nodes[..i] && nodes[i].next == if i + 1 < |nodes| then nodes[i + 1] else null;
        size := size + |node.kernelIr|;
        node := node.next;
        i := i + 1;
      }
      assert nodes[..i] == nodes;
      bytes := Copy(size);
    }

    method Copy(size: nat) returns (bytes: array<char>)
      requires Valid() && size == |Flatten(nodes)|
      ensures fresh(bytes) && bytes[..] == Flatten(nodes)
    {
      hide Linked, Flatten;
      FlattenNothing(nodes);
      bytes := new char[size];
      var p, node := 0, head;
      ghost var i := 0;
      while node != null
        invariant 0 <= i <= |nodes| && node == (if i < |nodes| then nodes[i] else null)
        invariant Linked(nodes) && p == |Flatten(nodes[..i])| <= size && bytes[..p] == Flatten(nodes[..i])
        decreases |nodes| - i
      {
        FlattenStep(nodes, i);
        NextNode(nodes, i);
        Move(bytes, p, node.kernelIr);
        p := p + |node.kernelIr|;
        node := node.next;
        i := i + 1;
      }
      assert nodes[..i] == nodes;
    }

    /**
     * Reads one kernel to the end of the list; a file that is not a kernel deletes the list, a missing one does not.
     */
    method ReadKernel(files: Files, path: string) returns (r: Taken)
      requires Valid() && freed == {}
      modifies this, tail
      ensures Valid() && r == if path !in files then NotFound else if IsKernel(files[path]) then Accepted else NotKernel
      ensures match r
              case Accepted =>
                && tail != null && fresh(tail)
                && Flatten(nodes) == Flatten(old(nodes)) + files[path] && freed == {}
              case NotFound => freed == {} && nodes == old(nodes)
              case NotKernel => freed == set n | n in old(nodes)
    {
      hide IsKernel, Linked, Flatten;
      if path !in files {
        return NotFound;
      }
      if !IsKernel(files[path]) {
        Delete();
        return NotKernel;
      }
      var node := new KernelIRNode(files[path]);
      FlattenAdd(nodes, node);
      Add(node);
      return Accepted;
    }

    /** Deletes every node, each once. */
    method Delete()
      requires Valid()
      modifies this
      ensures Valid() && nodes == [] && freed == old(freed) + set n | n in old(nodes)
    {
      var node := head;
      ghost var i := 0;
      ghost var all := nodes;
      while node != null
        invariant 0 <= i <= |all| && node == (if i < |all| then all[i] else null) && Linked(all)
        invariant freed == old(freed) + set n | n in all[..i]
        decreases |all| - i
      {
        var next := node.next;
        assert all[..i + 1] == all[..i] + [node] && all[i].next == if i + 1 < |all| then all[i + 1] else null;
        freed := freed + {node};
        node := next;
        i := i + 1;
      }
      assert all[..i] == all;
      head, tail, nodes := null, null, [];
    }
  }

  lemma NextNode(nodes: seq<KernelIRNode>, i: nat)
    requires Linked(nodes) && i < |nodes|
    ensures nodes[i].next == if i + 1 < |nodes| then nodes[i + 1] else null
  {
  }

  lemma FlattenNothing(nodes: seq<KernelIRNode>)
    ensures Flatten(nodes[..0]) == ""
  {
  }

  lemma FlattenStep(nodes: seq<KernelIRNode>, i: nat)
    requires i < |nodes|
    ensures Flatten(nodes[..i + 1]) == Flatten(nodes[..i]) + nodes[i].kernelIr
    ensures |Flatten(nodes[..i + 1])| <= |Flatten(nodes)|
  {
    assert nodes[..i + 1][..i] == nodes[..i];
    FlattenPrefix(nodes, i + 1);
  }

  lemma {:induction false} FlattenPrefix(nodes: seq<KernelIRNode>, n: nat)
    requires n <= |nodes|
    ensures |Flatten(nodes[..n])| <= |Flatten(nodes)|
    decreases |nodes|
  {
    if n == |nodes| {
      assert nodes[..n] == nodes;
    } else {
      var m := |nodes| - 1;
      assert nodes[..m][..n] == nodes[..n];
      FlattenPrefix(nodes[..m], n);
    }
  }

  /** Copies a string into a buffer. */
  method Move(bytes: array<char>, p: nat, source: string)
    requires p + |source| <= bytes.Length
    modifies bytes
    ensures bytes[..p + |source|] == old(bytes[..p]) + source
  {
    for k := 0 to |source|
      invariant bytes[..p + k] == old(bytes[..p]) + source[..k]
    {
      bytes[p + k] := source[k];
      assert bytes[..p + k + 1] == bytes[..p + k] + [source[k]];
    }
  }

  // ---------- reading a list ----------

  lemma {:induction false} CStringStops(line: string, rest: string)
    ensures CString(line + [NUL] + rest) == CString(line)
  {
    var whole := line + [NUL] + rest;
    if line != "" {
      CStringStops(line[1..], rest);
      assert whole[1..] == line[1..] + [NUL] + rest;
    }
  }

  lemma FlattenAdd(nodes: seq<KernelIRNode>, node: KernelIRNode)
    ensures Flatten(nodes + [node]) == Flatten(nodes) + node.kernelIr
  {
    assert (nodes + [node])[..|nodes|] == nodes;
  }

  lemma ConcatenationAdd(files: Files, dir: string, lines: seq<string>, line: string)
    requires AllGood(files, dir, lines) && GoodLine(files, dir, line)
    ensures AllGood(files, dir, lines + [line])
    ensures Concatenation(files, dir, lines + [line]) == Concatenation(files, dir, lines) + files[PathOf(dir, line)]
  {
    assert (lines + [line])[..|lines|] == lines;
  }

  /** A bad line after good ones: the read ends there, and whether the size is reset depends on why the line is bad. */
  ghost predicate EndsAt(files: Files, dir: string, lines: seq<string>, i: nat, listSize: int, size: int)
  {
    && i < |lines| && AllGood(files, dir, lines[..i]) && !GoodLine(files, dir, lines[i])
    && size == if PathOf(dir, lines[i]) in files then -1 else listSize
  }

  /**
   * Reads and merges the kernels a list names. `made` are the nodes allocated on the way; they are all deleted,
   * each once, except when a file cannot be read.
   */
  method TryReadKernelListBuffer(files: Files, uri: string, buffer: array<char>)
    returns (ok: bool, kernelIr: array?<char>, size: int, list: KernelIRList, ghost made: seq<KernelIRNode>)
    requires KERNEL_LIST_MAGIC <= buffer[..]
    modifies buffer
    ensures var lines := Lines(old(buffer[|KERNEL_LIST_MAGIC|..]));
            var dir := ListDirectory(uri);
            && (ok <==> AllGood(files, dir, lines))
            && (ok ==> kernelIr != null && kernelIr[..] == Concatenation(files, dir, lines))
            && (ok ==> size == TotalSize(files, dir, lines))
            && (!ok ==> kernelIr == null && exists i :: EndsAt(files, dir, lines, i, buffer.Length, size))
    ensures fresh(list) && if ok || size == -1 then list.freed == set n | n in made else list.freed == {}
  {
    hide *;
    var dir := ListDirectory(uri);
    list := new KernelIRList();
    made := [];
    var start := |KERNEL_LIST_MAGIC|;
    ghost var rest := buffer[start..];
    ghost var lines := Lines(rest);
    ghost var done: seq<string> := [];
    ConcatenationNothing(files, dir);
    while true
      invariant start <= buffer.Length && buffer[start..] == rest
      invariant lines == done + Lines(rest) && AllGood(files, dir, done)
      invariant fresh(list) && list.Valid() && list.freed == {} && list.nodes == made
      invariant list.tail == null || fresh(list.tail)
      invariant Flatten(made) == Concatenation(files, dir, done)
      decreases buffer.Length - start
    {
      var n, name := NextName(buffer, start, rest);
      LinesStep(rest);
      if start + n == buffer.Length {
        assert done == lines;
        break;
      }
      ghost var line := rest[..n];
      rest := rest[n + 1..];
      LineAt(lines, done, line, Lines(rest));
      var path := Resolved(dir, name);
      GoodLineIs(files, dir, line);
      var r := list.ReadKernel(files, path);
      if r != Accepted {
        size := if r == NotFound then buffer.Length else -1;
        Stop(files, dir, lines, done, line, buffer.Length, size);
        return false, null, size, list, made;
      }
      ConcatenationAdd(files, dir, done, line);
      made := list.nodes;
      done := done + [line];
      start := start + n + 1;
    }
    var bytes, total := list.Merge();
    SizeIsTotal(files, dir, lines);
    list.Delete();
    return true, bytes, total, list, made;
  }

  lemma Stop(files: Files, dir: string, lines: seq<string>, done: seq<string>, line: string, listSize: int, size: int)
    requires |done| < |lines| && lines[|done|] == line && lines[..|done|] == done && AllGood(files, dir, done)
    requires !GoodLine(files, dir, line)
    requires size == if PathOf(dir, line) in files then -1 else listSize
    ensures EndsAt(files, dir, lines, |done|, listSize, size) && !AllGood(files, dir, lines)
  {
  }

  lemma ConcatenationNothing(files: Files, dir: string)
    ensures AllGood(files, dir, [])
    ensures Concatenation(files, dir, []) == "" == Flatten([])
  {
  }

  /** The lines of a text: none, or the first one and those after it. */
  lemma LinesStep(text: string)
    ensures var n := FirstNewline(text); Lines(text) == if n == |text| then [] else [text[..n]] + Lines(text[n + 1..])
  {
  }

  /** Finds the end of the next line, cuts the buffer there and reads the name as a C string. */
  method NextName(buffer: array<char>, start: nat, ghost rest: string) returns (n: nat, name: string)
    requires start <= buffer.Length && buffer[start..] == rest
    modifies buffer
    ensures n == FirstNewline(rest) <= |rest|
    ensures n < |rest| ==> name == CString(rest[..n]) && buffer[start + n + 1..] == rest[n + 1..]
    ensures n == |rest| ==> buffer[..] == old(buffer[..])
  {
    hide CString, FirstNewline;
    n := FirstNewline(buffer[start..]);
    name := "";
    if start + n < buffer.Length {
      buffer[start + n] := NUL;
      ghost var after := buffer[start..];
      assert after == rest[n := NUL];
      assert after[..n] == rest[..n];
      NameAt(after, rest[..n]);
      name := CString(buffer[start..]);
      assert buffer[start + n + 1..] == after[n + 1..] == rest[n + 1..];
    }
  }

  lemma LineAt(lines: seq<string>, done: seq<string>, line: string, rest: seq<string>)
    requires lines == done + ([line] + rest)
    ensures |done| < |lines| && lines[|done|] == line && lines[..|done|] == done && lines == done + [line] + rest
  {
  }

  lemma NameAt(text: string, line: string)
    requires |line| < |text| && text[..|line|] == line && text[|line|] == NUL
    ensures CString(text) == CString(line)
  {
    assert text == line + [NUL] + text[|line| + 1..];
    CStringStops(line, text[|line| + 1..]);
  }

  lemma GoodLineIs(files: Files, dir: string, line: string)
    ensures PathOf(dir, line) == Resolved(dir, CString(line))
    ensures GoodLine(files, dir, line) <==> PathOf(dir, line) in files && IsKernel(files[PathOf(dir, line)])
  {
  }
}
