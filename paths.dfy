/** File-name helpers the ingestion Lambdas use: `os.path.basename`,
    `os.path.splitext` and `name.rsplit(".", 1)[-1]`. */
module Paths {
  import opened Wrappers
  import opened Text

  /** The text after the last `c`, or the whole text when it has no `c`. */
  function AfterLast(s: string, c: char): (r: string)
    ensures c !in r && EndsWith(s, r)
    ensures c !in s ==> r == s
  {
    match LastIndexOf(s, c)
    case None => s
    case Some(i) => s[i + 1..]
  }

  /** `os.path.basename`: the text after the last `/`. */
  function Basename(p: string): string {
    AfterLast(p, '/')
  }

  /** Whether a non-dot character comes before position `dot`, from `start` on. */
  predicate NonDotBetween(p: string, start: nat, dot: nat)
    requires start <= dot <= |p|
  {
    exists k :: start <= k < dot && p[k] != '.'
  }

  /** `os.path.splitext`: the extension starts at the last dot of the last path
      component, unless only dots precede it in that component (`.bashrc` has none). */
  function SplitExt(p: string): (r: (string, string))
    ensures r.0 + r.1 == p
    ensures r.1 == "" || (r.1[0] == '.' && '.' !in r.1[1..] && '/' !in r.1)
  {
    var start := match LastIndexOf(p, '/') case None => 0 case Some(i) => i + 1;
    match LastIndexOf(p, '.')
    case None => (p, "")
    case Some(dot) =>
      if dot < start || !NonDotBetween(p, start, dot) then (p, "")
      else
        assert p == p[..dot] + p[dot..];
        NoSlashAfter(p, dot);
        assert p[dot..][1..] == p[dot + 1..];
        (p[..dot], p[dot..])
  }

  /** Nothing after the last slash is a slash. */
  lemma NoSlashAfter(p: string, dot: nat)
    requires dot <= |p|
    requires LastIndexOf(p, '/').None? || LastIndexOf(p, '/').value < dot
    ensures '/' !in p[dot..]
  {
    if LastIndexOf(p, '/').Some? {
      var i := LastIndexOf(p, '/').value;
      forall k | dot <= k < |p| ensures p[k] != '/' {
        assert p[k] == p[i + 1..][k - i - 1];
      }
    }
  }

  /** `name.rsplit(".", 1)[-1]`: the text after the last dot, or the whole name. */
  function AfterLastDot(name: string): string {
    AfterLast(name, '.')
  }

  /** Where `splitext` finds an extension, it is a dot followed by what `rsplit` gives. */
  lemma SplitExtAgreesWithRsplit(name: string)
    requires SplitExt(name).1 != ""
    ensures SplitExt(name).1 == "." + AfterLastDot(name)
  {
    assert LastIndexOf(name, '.').Some?;
    var dot := LastIndexOf(name, '.').value;
    assert SplitExt(name).1 == name[dot..];
    assert AfterLastDot(name) == name[dot + 1..];
    assert name[dot..] == [name[dot]] + name[dot + 1..];
  }

  /** A name whose last dot has an ordinary character somewhere before it keeps its
      extension under `splitext`. */
  lemma SplitExtOfName(name: string, k: nat)
    requires '/' !in name && '.' in name
    requires k < LastIndexOf(name, '.').value && name[k] != '.'
    ensures SplitExt(name) == (name[..LastIndexOf(name, '.').value], name[LastIndexOf(name, '.').value..])
  {
  }

  /** A name made only of dots and one trailing word, like `.jpg`, has no extension for
      `splitext` although `rsplit` finds one. */
  lemma LeadingDotName()
    ensures SplitExt(".jpg") == (".jpg", "") && AfterLastDot(".jpg") == "jpg"
  {
    assert LastIndexOf(".jpg", '.') == Some(0) by {
      assert '.' !in ".jpg"[1..];
    }
  }

  /** `LastIndexOf` is the position of a `c` with no `c` after it. */
  lemma LastIndexOfIs(s: string, c: char, i: nat)
    requires i < |s| && s[i] == c && c !in s[i + 1..]
    ensures LastIndexOf(s, c) == Some(i)
  {
    var j := LastIndexOf(s, c).value;
    assert i <= j by {
      assert forall k :: j < k < |s| ==> s[k] == s[j + 1..][k - j - 1];
    }
    assert j <= i by {
      assert forall k :: i < k < |s| ==> s[k] == s[i + 1..][k - i - 1];
    }
  }

  /** A path `dir/name` has the base name and the extension of `name`. */
  lemma InDirectory(dir: string, name: string)
    requires '/' !in name
    ensures Basename(dir + "/" + name) == name
    ensures SplitExt(dir + "/" + name).1 == SplitExt(name).1
  {
    var p := dir + "/" + name;
    assert p[|dir| + 1..] == name;
    LastIndexOfIs(p, '/', |dir|);
    if '.' in name {
      DottedAfter(p, |dir| + 1, name);
    } else {
      UndottedAfter(p, |dir| + 1, name);
    }
  }

  lemma DottedAfter(p: string, start: nat, name: string)
    requires 0 < start <= |p| && p[start..] == name && '.' in name
    requires LastIndexOf(p, '/') == Some(start - 1)
    ensures SplitExt(p).1 == SplitExt(name).1
  {
    var d := LastIndexOf(name, '.').value;
    LastDotAfter(p, start, name, d);
    NonDotShift(p, start, name, d);
    assert LastIndexOf(name, '/').None?;
    SplitExtOfPart(name, d);
  }

  /** The extension `splitext` finds at the last dot `dot` when the final part starts
      at `start`. */
  lemma SplitExtAtDot(p: string, start: nat, dot: nat)
    requires 0 < start <= dot < |p| && p[start - 1] == '/' && '/' !in p[start..]
    requires p[dot] == '.' && '.' !in p[dot + 1..]
    ensures SplitExt(p).1 == if NonDotBetween(p, start, dot) then p[dot..] else ""
  {
    LastIndexOfIs(p, '/', start - 1);
    LastIndexOfIs(p, '.', dot);
  }

  /** The extension `splitext` finds at the last dot `dot` of a name without a slash. */
  lemma SplitExtOfPart(name: string, dot: nat)
    requires LastIndexOf(name, '/').None? && LastIndexOf(name, '.') == Some(dot)
    ensures SplitExt(name).1 == if NonDotBetween(name, 0, dot) then name[dot..] else ""
  {
  }

  /** The last dot of `p` is the last dot of its final part `name`, moved by `start`, and
      `splitext` cuts `p` there when it cuts `name` there. */
  lemma LastDotAfter(p: string, start: nat, name: string, d: nat)
    requires 0 < start <= |p| && p[start..] == name && LastIndexOf(name, '.') == Some(d)
    requires LastIndexOf(p, '/') == Some(start - 1)
    ensures SplitExt(p).1 == if NonDotBetween(p, start, start + d) then name[d..] else ""
  {
    DropShift(p, start, name, d);
    DropShift(p, start, name, d + 1);
    SplitExtAtDot(p, start, start + d);
  }

  /** Dropping `d` more characters of `p[start..]` drops `start + d` of `p`. */
  lemma DropShift(p: string, start: nat, name: string, d: nat)
    requires start <= |p| && p[start..] == name && d <= |name|
    ensures p[start + d..] == name[d..]
    ensures d < |name| ==> p[start + d] == name[d]
  {
  }

  /** A non-dot before position `d` of `name` is one before `start + d` of `p`. */
  lemma NonDotShift(p: string, start: nat, name: string, d: nat)
    requires start <= |p| && p[start..] == name && d <= |name|
    ensures NonDotBetween(name, 0, d) <==> NonDotBetween(p, start, start + d)
  {
    if NonDotBetween(name, 0, d) {
      var k :| 0 <= k < d && name[k] != '.';
      assert p[start + k] == name[k];
    }
    if NonDotBetween(p, start, start + d) {
      var k :| start <= k < start + d && p[k] != '.';
      assert name[k - start] == p[k];
    }
  }

  lemma UndottedAfter(p: string, start: nat, name: string)
    requires 0 < start <= |p| && p[start..] == name && '.' !in name
    requires LastIndexOf(p, '/') == Some(start - 1)
    ensures SplitExt(p).1 == ""
  {
    if LastIndexOf(p, '.').Some? {
      var dot := LastIndexOf(p, '.').value;
      assert dot < start by {
        assert forall k :: start <= k < |p| ==> p[k] == name[k - start];
      }
      assert SplitExt(p) == (p, "");
    }
  }
}
