/** Windows paths as NFS components. A path is a UTF-8 string as its bytes; both
    separators are ASCII, so cutting bytes is cutting characters. */
module NfsPath {
  import opened Wire
  import opened Xdr
  import opened Options

  const SLASH: byte := 0x2F
  const BACKSLASH: byte := 0x5C

  predicate IsSeparator(b: byte) { b == BACKSLASH || b == SLASH }

  /** The pieces between separators, empty ones included. */
  function Split(s: seq<byte>): (pieces: seq<seq<byte>>)
    ensures |pieces| >= 1
  {
    if s == [] then [[]]
    else
      var later := Split(s[1..]);
      if IsSeparator(s[0]) then [[]] + later else [[s[0]] + later[0]] + later[1..]
  }

  function NonEmpty(pieces: seq<seq<byte>>): seq<seq<byte>> {
    if pieces == [] then []
    else if pieces[0] == [] then NonEmpty(pieces[1..])
    else [pieces[0]] + NonEmpty(pieces[1..])
  }

  function ToNfsComponents(path: seq<byte>): seq<seq<byte>> {
    NonEmpty(Split(path))
  }

  function Join(cs: seq<seq<byte>>): seq<byte> {
    if cs == [] then [] else if |cs| == 1 then cs[0] else cs[0] + [SLASH] + Join(cs[1..])
  }

  function ToNfsPath(cs: seq<seq<byte>>): seq<byte> {
    if cs == [] then [SLASH] else [SLASH] + Join(cs)
  }

  datatype ParentName = ParentName(parent: seq<seq<byte>>, name: seq<byte>)

  function SplitParentName(path: seq<byte>): Option<ParentName> {
    var cs := ToNfsComponents(path);
    if cs == [] then None else Some(ParentName(cs[..|cs| - 1], cs[|cs| - 1]))
  }

  /** A name that can stand between separators: neither slash nor backslash is in it. */
  predicate Clean(c: seq<byte>) {
    c != [] && forall i | 0 <= i < |c| :: c[i] != 0x2F && c[i] != 0x5C
  }

  // ---------------------------------------------------------------- splitting

  lemma {:induction false} SplitPlain(c: seq<byte>)
    requires forall i | 0 <= i < |c| :: !IsSeparator(c[i])
    ensures Split(c) == [c]
  {
    if c != [] {
      SplitPlain(c[1..]);
      assert [c[0]] + c[1..] == c;
    }
  }

  lemma {:induction false} SplitStep(x: byte, t: seq<byte>)
    ensures Split([x] + t) == if IsSeparator(x) then [[]] + Split(t) else [[x] + Split(t)[0]] + Split(t)[1..]
  {
    assert ([x] + t)[1..] == t;
  }

  lemma {:induction false} Regroup(x: seq<byte>, p: seq<seq<byte>>, q: seq<seq<byte>>)
    requires |p| >= 1
    ensures [x + (p + q)[0]] + (p + q)[1..] == [x + p[0]] + p[1..] + q
    ensures [x] + (p + q) == [x] + p + q
  {
    assert (p + q)[1..] == p[1..] + q;
  }

  /** A separator splits the pieces of its two sides apart. */
  lemma {:induction false} SplitAt(a: seq<byte>, sep: byte, b: seq<byte>)
    requires IsSeparator(sep)
    ensures Split(a + [sep] + b) == Split(a) + Split(b)
  {
    hide IsSeparator, Split;
    if a == [] {
      assert a + [sep] + b == [sep] + b;
      SplitStep(sep, b);
      SplitNothing();
    } else {
      var x, t := a[0], a[1..];
      assert a == [x] + t && a + [sep] + b == [x] + (t + [sep] + b);
      SplitAt(t, sep, b);
      SplitStep(x, t);
      SplitStep(x, t + [sep] + b);
      Regroup([x], Split(t), Split(b));
      Regroup([], Split(t), Split(b));
    }
  }

  lemma {:induction false} SplitNothing()
    ensures Split([]) == [[]]
  {
  }

  lemma {:induction false} NonEmptyAppend(p: seq<seq<byte>>, q: seq<seq<byte>>)
    ensures NonEmpty(p + q) == NonEmpty(p) + NonEmpty(q)
  {
    if p == [] {
      assert p + q == q;
    } else {
      assert (p + q)[0] == p[0] && (p + q)[1..] == p[1..] + q;
      NonEmptyAppend(p[1..], q);
    }
  }

  /** Paths joined by a separator have the components of both, in order. */
  lemma {:induction false} ComponentsAppend(a: seq<byte>, sep: byte, b: seq<byte>)
    requires sep == 0x2F || sep == 0x5C
    ensures ToNfsComponents(a + [sep] + b) == ToNfsComponents(a) + ToNfsComponents(b)
  {
    SplitAt(a, sep, b);
    NonEmptyAppend(Split(a), Split(b));
  }

  lemma {:induction false} CleanAlone(c: seq<byte>)
    requires Clean(c)
    ensures ToNfsComponents(c) == [c]
  {
    SplitPlain(c);
    var pieces := [c];
    assert pieces[1..] == [] && NonEmpty(pieces[1..]) == [];
    assert NonEmpty(pieces) == [c] + [];
  }

  lemma {:induction false} NoComponents()
    ensures ToNfsComponents([]) == []
  {
    var pieces := Split([]);
    assert pieces[1..] == [];
  }

  // ------------------------------------------------------------- main results

  /** What components are: never empty, free of separators, and again UTF-8. */
  lemma {:induction false} ComponentsClean(path: seq<byte>, k: nat)
    requires k < |ToNfsComponents(path)|
    ensures Clean(ToNfsComponents(path)[k])
    ensures ValidUtf8(path) ==> ValidUtf8(ToNfsComponents(path)[k])
    decreases |path|
  {
    if i :| 0 <= i < |path| && IsSeparator(path[i]) {
      var a, b := path[..i], path[i + 1..];
      assert path == a + [path[i]] + b;
      ComponentsAppend(a, path[i], b);
      if ValidUtf8(path) {
        Utf8CutAt(path, i);
      }
      if k < |ToNfsComponents(a)| {
        ComponentsClean(a, k);
      } else {
        ComponentsClean(b, k - |ToNfsComponents(a)|);
      }
    } else if path == [] {
      NoComponents();
    } else {
      CleanAlone(path);
    }
  }

  /** A valid string cut at an ASCII character leaves two valid strings. */
  lemma {:induction false} Utf8CutAt(s: seq<byte>, i: nat)
    requires ValidUtf8(s) && i < |s| && s[i] < 0x80
    ensures ValidUtf8(s[..i]) && ValidUtf8(s[i + 1..])
    decreases |s|
  {
    var n := ScalarLength(s);
    TailBytes(s);
    if i >= n {
      Utf8CutAt(s[n..], i - n);
      assert s[n..][..i - n] == s[..i][n..];
      assert s[n..][i - n + 1..] == s[i + 1..];
      PrefixScalar(s, i);
    }
  }

  /** In a scalar of several bytes none is ASCII. */
  lemma {:induction false} TailBytes(s: seq<byte>)
    requires s != []
    ensures ScalarLength(s) > 1 ==> forall k | 0 <= k < ScalarLength(s) :: s[k] >= 0x80
  {
  }

  lemma {:induction false} PrefixScalar(s: seq<byte>, i: nat)
    requires s != [] && 0 < ScalarLength(s) <= i <= |s|
    ensures ScalarLength(s[..i]) == ScalarLength(s)
  {
  }

  lemma {:induction false} JoinReadBack(cs: seq<seq<byte>>)
    requires cs != [] && forall i | 0 <= i < |cs| :: Clean(cs[i])
    ensures ToNfsComponents(Join(cs)) == cs
  {
    hide ToNfsComponents;
    CleanAlone(cs[0]);
    if |cs| > 1 {
      JoinReadBack(cs[1..]);
      ComponentsAppend(cs[0], SLASH, Join(cs[1..]));
      assert [cs[0]] + cs[1..] == cs;
    }
  }

  /** A list of names is read back from the path it makes exactly when every name
      is non-empty and free of separators. */
  lemma {:induction false} PathReadBackIff(cs: seq<seq<byte>>)
    ensures ToNfsComponents(ToNfsPath(cs)) == cs <==> forall i | 0 <= i < |cs| :: Clean(cs[i])
  {
    hide ToNfsComponents;
    NoComponents();
    if cs == [] {
      ComponentsAppend([], SLASH, []);
      assert [] + [SLASH] + [] == [SLASH];
    } else if forall i | 0 <= i < |cs| :: Clean(cs[i]) {
      ComponentsAppend([], SLASH, Join(cs));
      assert [] + [SLASH] + Join(cs) == [SLASH] + Join(cs);
      JoinReadBack(cs);
    }
    if ToNfsComponents(ToNfsPath(cs)) == cs {
      forall i | 0 <= i < |cs|
        ensures Clean(cs[i])
      {
        ComponentsClean(ToNfsPath(cs), i);
      }
    }
  }

  /** Which bytes separate, and nothing else does: the components of a path, in full. */
  lemma {:induction false} SeparatorsAre(a: seq<byte>, b: seq<byte>)
    ensures ToNfsComponents(a + [0x5C] + b) == ToNfsComponents(a) + ToNfsComponents(b)
    ensures ToNfsComponents(a + [0x2F] + b) == ToNfsComponents(a) + ToNfsComponents(b)
    ensures 0x5C !in a && 0x2F !in a ==> ToNfsComponents(a) == if a == [] then [] else [a]
    ensures forall k | 0 <= k < |ToNfsComponents(a)| ::
              ToNfsComponents(a)[k] != [] && 0x5C !in ToNfsComponents(a)[k] && 0x2F !in ToNfsComponents(a)[k]
  {
    hide ToNfsComponents;
    ComponentsAppend(a, 0x5C, b);
    ComponentsAppend(a, 0x2F, b);
    NoComponents();
    if 0x5C !in a && 0x2F !in a && a != [] {
      CleanAlone(a);
    }
    forall k | 0 <= k < |ToNfsComponents(a)|
      ensures Clean(ToNfsComponents(a)[k])
    {
      ComponentsClean(a, k);
    }
  }

  /** The path made of components: a slash in front of each, and a slash alone for none. */
  lemma {:induction false} PathForm(cs: seq<seq<byte>>, c: seq<byte>)
    ensures ToNfsPath([]) == [0x2F]
    ensures ToNfsPath([c]) == [0x2F] + c
    ensures cs != [] ==> ToNfsPath(cs + [c]) == ToNfsPath(cs) + [0x2F] + c
  {
    if cs != [] {
      JoinAppend(cs, c);
      assert [0x2F] + (Join(cs) + [0x2F] + c) == [0x2F] + Join(cs) + [0x2F] + c;
    }
  }

  lemma {:induction false} JoinAppend(cs: seq<seq<byte>>, c: seq<byte>)
    requires cs != []
    ensures Join(cs + [c]) == Join(cs) + [0x2F] + c
  {
    if |cs| == 1 {
      assert (cs + [c])[1..] == [c] && Join([c]) == c;
    } else {
      JoinAppend(cs[1..], c);
      assert (cs + [c])[1..] == cs[1..] + [c];
      assert cs[0] + [0x2F] + (Join(cs[1..]) + [0x2F] + c) == cs[0] + [0x2F] + Join(cs[1..]) + [0x2F] + c;
    }
  }

  /** The parent is every component but the last, the name the last. */
  lemma {:induction false} ParentNameOf(cs: seq<seq<byte>>, c: seq<byte>)
    requires Clean(c) && forall i | 0 <= i < |cs| :: Clean(cs[i])
    ensures SplitParentName(ToNfsPath(cs + [c])) == Some(ParentName(cs, c))
  {
    hide ToNfsComponents, ToNfsPath;
    PathReadBackIff(cs + [c]);
    assert (cs + [c])[..|cs|] == cs;
  }

  function Normalise(path: seq<byte>): seq<byte> {
    ToNfsPath(ToNfsComponents(path))
  }

  /** Normalising keeps the components, so doing it twice changes nothing more, and
      two paths mean the same exactly when they normalise to the same. */
  lemma {:induction false} NormaliseIsCanonical(p: seq<byte>, q: seq<byte>)
    ensures ToNfsComponents(Normalise(p)) == ToNfsComponents(p)
    ensures Normalise(Normalise(p)) == Normalise(p)
    ensures ToNfsComponents(p) == ToNfsComponents(q) <==> Normalise(p) == Normalise(q)
  {
    hide ToNfsComponents, ToNfsPath;
    NormaliseKeeps(p);
    NormaliseKeeps(q);
  }

  lemma {:induction false} NormaliseKeeps(p: seq<byte>)
    ensures ToNfsComponents(Normalise(p)) == ToNfsComponents(p)
  {
    hide ToNfsComponents, ToNfsPath;
    forall i | 0 <= i < |ToNfsComponents(p)|
      ensures Clean(ToNfsComponents(p)[i])
    {
      ComponentsClean(p, i);
    }
    PathReadBackIff(ToNfsComponents(p));
  }

  /** A path is its parent and its name again; only a path without components,
      such as the root, has neither. */
  lemma {:induction false} ParentNameRejoined(path: seq<byte>, sep: byte)
    requires sep == 0x2F || sep == 0x5C
    ensures SplitParentName(path) == None <==> ToNfsComponents(path) == []
    ensures SplitParentName(path).Some? ==>
              var pn := SplitParentName(path).value;
              Clean(pn.name) && ToNfsComponents(ToNfsPath(pn.parent) + [sep] + pn.name) == ToNfsComponents(path)
  {
    hide ToNfsComponents, ToNfsPath;
    var cs := ToNfsComponents(path);
    if cs != [] {
      var n := |cs| - 1;
      forall i | 0 <= i < |cs|
        ensures Clean(cs[i])
      {
        ComponentsClean(path, i);
      }
      PathReadBackIff(cs[..n]);
      CleanAlone(cs[n]);
      ComponentsAppend(ToNfsPath(cs[..n]), sep, cs[n]);
      assert cs[..n] + [cs[n]] == cs;
    }
  }
}
