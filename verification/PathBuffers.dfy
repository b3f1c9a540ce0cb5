/** The bounded path buffer that directory walks edit in place. */
module PathBuffers {

  const PATH_MAX: nat := 4096

  const NUL: char := '\0'

  /** A C string: the characters before the first NUL. */
  function CString(s: seq<char>): (r: string)
    ensures r <= s && NUL !in r
    ensures |r| < |s| ==> s[|r|] == NUL
    ensures forall i :: 0 <= i < |s| && s[i] == NUL ==> |r| <= i
  {
    if s == [] || s[0] == NUL then [] else [s[0]] + CString(s[1..])
  }

  lemma {:induction false} CStringOf(s: seq<char>, n: nat)
    requires n < |s| && NUL !in s[..n] && s[n] == NUL
    ensures CString(s) == s[..n]
  {
    if n > 0 {
      var t := s[1..];
      assert s[0] in s[..n];
      assert forall c :: c in t[..n - 1] ==> c in s[..n];
      CStringOf(t, n - 1);
    }
  }

  lemma TakeConcat(a: string, b: string, k: nat)
    requires k <= |b|
    ensures (a + b)[..|a| + k] == a + b[..k]
  {
  }

  /** How many characters the buffer shows after appending `k` characters to `n` of them. */
  function Shown(n: nat, k: nat): (r: nat)
    ensures n <= PATH_MAX ==> n <= r <= n + k
    ensures r == n + k <==> n + k < PATH_MAX || k == 0
  {
    if n + k < PATH_MAX then n + k else if n < PATH_MAX then PATH_MAX - 1 else n
  }

  class PathBuffer {
    const data: array<char>
    var length: nat

    ghost predicate Valid()
      reads this, data
    {
      data.Length == PATH_MAX + 1 && length <= PATH_MAX && data[PATH_MAX] == NUL
    }

    ghost function AsString(): (s: string)
      requires Valid()
      reads this, data
    {
      CString(data[..])
    }

    /** The buffer shows exactly `length` characters. */
    ghost predicate Clean()
      reads this, data
    {
      Valid() && |AsString()| == length
    }

    /** Not another character fits, and the last one added may be missing. */
    ghost predicate Full()
      reads this, data
    {
      Valid() && length == PATH_MAX
    }

    /** The text a system call reads: up to the first terminator, whatever the length says. */
    function Value(): (s: string)
      requires Valid()
      reads this, data
      ensures s == AsString() && NUL !in s
    {
      CString(data[..])
    }

    constructor ()
      ensures Clean() && AsString() == "" && fresh(data)
    {
      data := new char[PATH_MAX + 1](_ => NUL);
      length := 0;
    }

    /** Writes the first `k` characters of a name and a terminator. */
    method Write(name: string, k: nat)
      requires data.Length == PATH_MAX + 1 && k <= |name| && length + k < PATH_MAX
      modifies data
      ensures data[..length + k] == old(data[..length]) + name[..k] && data[length + k] == NUL
    {
      for i := 0 to k
        invariant data[..length + i] == old(data[..length]) + name[..i]
      {
        data[length + i] := name[i];
        assert data[..length + i + 1] == data[..length + i] + [name[i]];
      }
      ghost var written := data[..length + k];
      data[length + k] := NUL;
      assert data[..length + k] == written;
    }

    /** Writes what fits of a name before a terminator, and nothing into an empty remainder. */
    method Print(name: string)
      requires (Clean() || Full()) && NUL !in name
      modifies data
      ensures Valid()
      ensures AsString() == if old(Clean()) then (old(AsString()) + name)[..Shown(length, |name|)] else old(AsString())
    {
      if length < PATH_MAX {
        Append(name);
      } else {
        ghost var before := data[..];
        data[PATH_MAX] := NUL;
        assert data[..] == before;
      }
    }

    method Append(name: string)
      requires Clean() && !Full() && NUL !in name
      modifies data
      ensures Valid() && AsString() == (old(AsString()) + name)[..Shown(length, |name|)]
    {
      ghost var before, shown := AsString(), Shown(length, |name|);
      assert data[..length] == before;
      var k := if |name| < PATH_MAX - length then |name| else PATH_MAX - length - 1;
      Write(name, k);
      TakeConcat(before, name, k);
      ghost var written := data[..shown];
      data[PATH_MAX] := NUL;
      assert data[..shown] == written == (before + name)[..shown];
      Shows(before + name, shown);
    }

    /** What the buffer shows is what it holds before the first terminator. */
    lemma Shows(s: string, n: nat)
      requires data.Length == PATH_MAX + 1 && n <= |s| && n <= PATH_MAX && NUL !in s && data[..n] == s[..n]
      requires data[n] == NUL
      ensures CString(data[..]) == s[..n]
    {
      assert data[..][..n] == s[..n];
      assert forall c :: c in s[..n] ==> c in s;
      CStringOf(data[..], n);
    }

    /**
     * Appends a name. It succeeds when the name ends at the limit or before, yet at the limit itself the last
     * character is lost; a refused name leaves its beginning behind until the next reset. A full buffer stays as it is.
     */
    method Add(name: string) returns (ok: bool)
      requires (Clean() || Full()) && NUL !in name
      modifies this`length, data
      ensures Valid()
      ensures ok <==> old(length) + |name| <= PATH_MAX
      ensures length == if ok then old(length) + |name| else old(length)
      ensures AsString() == if old(Clean()) then (old(AsString()) + name)[..Shown(old(length), |name|)]
                            else old(AsString())
      ensures old(Clean()) ==>
                ((ok && Clean() && AsString() == old(AsString()) + name) <==>
                 (old(length) + |name| < PATH_MAX || name == ""))
    {
      Print(name);
      ok := |name| <= PATH_MAX - length;
      if ok {
        length := length + |name|;
      }
    }

    /** Cuts the buffer back. */
    method Reset(newLength: nat)
      requires Valid() && (newLength <= |AsString()| || newLength == PATH_MAX)
      modifies this`length, data
      ensures Valid() && length == newLength
      ensures newLength <= |old(AsString())| ==> Clean() && AsString() == old(AsString())[..newLength]
      ensures newLength == PATH_MAX ==> AsString() == old(AsString())
    {
      ghost var before := data[..];
      length := newLength;
      data[length] := NUL;
      if newLength <= |old(AsString())| {
        assert data[..][..newLength] == before[..newLength];
        CStringOf(data[..], newLength);
      } else {
        assert data[..] == before;
      }
    }
  }
}
