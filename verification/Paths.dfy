/** Path names: how they are joined while observing and while creating the tree. */
module Paths {
  import opened CMachine
  import opened CStrings

  const MAX_PATH_SIZE: nat := 1024

  /** What set_current_wd makes of the current path. */
  function Enter(path: string, name: string): string {
    if path == "" then name else path + "/" + name
  }

  /** What unset_current_wd makes of it. */
  function Leave(path: string, name: string): string
    requires |path| == |name| || |path| > |name|
  {
    if |path| == |name| then "" else path[..|path| - |name| - 1]
  }

  lemma LeaveUndoesEnter(path: string, name: string)
    ensures |Enter(path, name)| == |name| || |Enter(path, name)| > |name|
    ensures Leave(Enter(path, name), name) == path
  {
  }

  /** What attach writes in front of an entry name. */
  function AttachPrefix(dir: string): string {
    if dir == "." || dir == "" then ""
    else if dir[|dir| - 1] == '/' then dir
    else dir + "/"
  }

  /** What attach makes of a directory path and an entry name. */
  function Attach(dir: string, name: string): string {
    AttachPrefix(dir) + name
  }

  /** Which directory paths attach keeps as they are, leaves out, or gives a slash. */
  lemma AttachIs(dir: string, name: string)
    ensures Attach(".", name) == Attach("", name) == name
    ensures Attach(dir + "/", name) == dir + "/" + name
    ensures dir != "" && dir != "." && dir[|dir| - 1] != '/' ==> Attach(dir, name) == dir + "/" + name
  {
  }

  /** The last component of a path that does not end in a slash. */
  function Basename(path: string): (name: string)
    ensures '/' !in name && |name| <= |path| && path[|path| - |name|..] == name
    ensures '/' !in path ==> name == path
  {
    if path == "" || path[|path| - 1] == '/' then ""
    else Basename(path[..|path| - 1]) + [path[|path| - 1]]
  }

  /** Everything before the last component, its slash included. */
  function DirPart(path: string): (dir: string)
    ensures dir + Basename(path) == path
  {
    path[..|path| - |Basename(path)|]
  }

  lemma {:induction false} BasenameOfTail(dir: string, name: string)
    requires '/' !in name
    requires dir == "" || dir[|dir| - 1] == '/'
    ensures Basename(dir + name) == name
    decreases name
  {
    if name == "" {
      assert dir + name == dir;
    } else {
      var n := |name| - 1;
      BasenameOfTail(dir, name[..n]);
      LastOfConcat(dir, name);
      var s := dir + name;
      assert s != "" && s[|s| - 1] != '/';
      assert Basename(s) == Basename(s[..|s| - 1]) + [s[|s| - 1]];
    }
  }

  lemma LastOfConcat(dir: string, name: string)
    requires name != ""
    ensures (dir + name)[..|dir + name| - 1] == dir + name[..|name| - 1]
    ensures (dir + name)[|dir + name| - 1] == name[|name| - 1]
  {
  }

  lemma {:induction false} DirPartShape(path: string)
    ensures DirPart(path) == "" || DirPart(path)[|DirPart(path)| - 1] == '/'
    ensures DirPart(path) == "" <==> '/' !in path
  {
    if path != "" && path[|path| - 1] != '/' {
      var front := path[..|path| - 1];
      DirPartShape(front);
      assert DirPart(path) == DirPart(front);
    }
  }

  /** The buffer behind path(): one C string, pushed to and popped from in place. */
  class PathBuffer {
    const buf: array<char>
    ghost var text: string

    ghost predicate Valid()
      reads this, buf
    {
      buf.Length == MAX_PATH_SIZE && Holds(buf[..], text)
    }

    constructor ()
      ensures Valid() && text == "" && fresh(buf)
    {
      buf := new char[MAX_PATH_SIZE](_ => '\0');
      text := "";
    }

    method Path() returns (s: string)
      requires Valid()
      ensures s == text
    {
      s := ReadString(buf, text);
    }

    method Set(name: string)
      requires Valid() && '\0' !in name && |Enter(text, name)| < MAX_PATH_SIZE
      modifies this, buf
      ensures Valid() && text == Enter(old(text), name)
    {
      var len := Strlen(buf, text);
      var ptr := len;
      if len != 0 {
        buf[ptr] := '/';
        ptr := ptr + 1;
      }
      CopyChars(buf, ptr, name);
      buf[ptr + |name|] := '\0';
      text := Enter(text, name);
      assert buf[..|text|] == text;
    }

    method Unset(name: string)
      requires Valid() && (|text| == |name| || |text| > |name|)
      modifies this, buf
      ensures Valid() && text == Leave(old(text), name)
    {
      var lenName := |name|;
      var len := Strlen(buf, text);
      if len == lenName {
        buf[0] := '\0';
        text := "";
      } else {
        EraseBackwards(len, lenName);
        text := text[..len - |name| - 1];
      }
    }

    /** `while (len_name-- + 1)`: the counter runs through zero and stops when it has wrapped. */
    method EraseBackwards(len: nat, nameLen: nat)
      requires nameLen < len < buf.Length <= OBJECT_MAX
      modifies buf
      ensures buf[..len - nameLen - 1] == old(buf[..len - nameLen - 1])
      ensures buf[len - nameLen - 1] == '\0'
    {
      var ptr, left: int := len, nameLen;
      var more := Wrap(left + 1) != 0;
      left := Wrap(left - 1);
      ghost var k := 0;
      while more
        invariant 0 <= k <= nameLen + 1 && ptr == len - k
        invariant more == (k <= nameLen)
        invariant more ==> left == if k == nameLen then SIZE_MAX else nameLen - 1 - k
        invariant buf[..len - nameLen - 1] == old(buf[..len - nameLen - 1])
        invariant k > 0 ==> buf[ptr] == '\0'
        decreases nameLen + 1 - k
      {
        ptr := ptr - 1;
        buf[ptr] := '\0';
        more := Wrap(left + 1) != 0;
        left := Wrap(left - 1);
        k := k + 1;
      }
    }
  }

  /** The first half of attach: the directory, and a slash unless it ends in one. */
  method WriteDirectory(dest: array<char>, dir: string) returns (at: nat)
    requires |dir| + 1 < dest.Length && forall k :: 0 <= k < dest.Length ==> dest[k] == '\0'
    modifies dest
    ensures at == |AttachPrefix(dir)| <= |dir| + 1 && dest[..at] == AttachPrefix(dir)
    ensures forall k :: at <= k < dest.Length ==> dest[k] == '\0'
  {
    at := 0;
    if dir != "." {
      CopyChars(dest, 0, dir);
      at := |dir|;
      assert dest[..at] == dir;
      assert forall k :: at <= k < dest.Length ==> dest[k] == dest[..][k];
      if at > 0 && dir[at - 1] != '/' {
        dest[at] := '/';
        at := at + 1;
        assert dest[..at] == dir + "/";
      }
    }
  }

  /** attach: a fresh buffer with room for both strings, a slash and the NUL. */
  method AttachChars(dir: string, name: string) returns (dest: array<char>)
    requires '\0' !in dir && '\0' !in name
    ensures fresh(dest) && dest.Length == |dir| + |name| + 2
    ensures Holds(dest[..], Attach(dir, name))
  {
    dest := new char[|dir| + |name| + 2](_ => '\0');
    var at := WriteDirectory(dest, dir);
    ghost var before, rest := dest[..at], dest[at + |name|..];
    assert rest[0] == dest[at + |name|] == '\0';
    CopyChars(dest, at, name);
    HoldsBuilt(dest[..], before + name, rest);
  }
}
