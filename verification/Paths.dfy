/** The files that a storage server keeps for a stored file, and why their path names never meet. */
module Paths {
  import Decimal

  /** The main file, its undo copy, its checkpoints, and the copies of write sessions. */
  datatype Path =
    | Main(name: string)
    | Undo(name: string)
    | Checkpoint(name: string, tag: string)
    | Copy(name: string, user: string, index: nat)

  const UNDO := ".undo"
  const CHECKPOINT := ".checkpoint_"
  const TEMP := ".temp_"

  /** The path name, relative to the storage directory. */
  function Render(p: Path): string {
    match p
    case Main(name) => name
    case Undo(name) => name + UNDO
    case Checkpoint(name, tag) => name + CHECKPOINT + tag
    case Copy(name, user, index) => name + TEMP + (user + "_" + Decimal.Digits(index))
  }

  /** The path names of a file, spelled out. */
  lemma PathNames(name: string, tag: string, user: string)
    ensures Render(Main(name)) == name && Render(Undo(name)) == name + ".undo"
    ensures Render(Checkpoint(name, tag)) == name + (".checkpoint_" + tag)
    ensures Render(Copy(name, user, 12)) == name + (".temp_" + (user + "_12"))
  {
    assert Decimal.Digits(12) == "12";
    assert ".checkpoint_" + tag == CHECKPOINT + tag;
  }

  predicate StartsAt(s: string, i: nat, mark: string) {
    i + |mark| <= |s| && s[i..i + |mark|] == mark
  }

  predicate Contains(s: string, mark: string) {
    exists i :: 0 <= i <= |s| && StartsAt(s, i, mark)
  }

  /** A file name without any of the derived suffixes in it. */
  predicate Plain(name: string) {
    !Contains(name, UNDO) && !Contains(name, CHECKPOINT) && !Contains(name, TEMP)
  }

  predicate IsMark(mark: string) {
    |mark| >= 2 && mark[0] == '.' && forall i :: 1 <= i < |mark| ==> mark[i] != '.'
  }

  /** If one reading of a path name puts a mark in front of the end of the other reading's name, that name contains
      it. */
  lemma MarkInside(n: string, mark: string, x: string, m: string, rest: string)
    requires n + (mark + x) == m + rest && |n| < |m| && IsMark(mark)
    requires rest == "" || rest[0] == '.'
    ensures Contains(m, mark)
  {
    var s := n + (mark + x);
    assert forall x :: |n| < x < |n| + |mark| ==> s[x] == mark[x - |n|] != '.';
    assert rest != "" ==> s[|m|] == '.';
    assert |m| >= |n| + |mark|;
    assert s[|m|..] == rest && s[..|m|] == m;
    assert s[|n|..|n| + |mark|] == mark;
    assert StartsAt(m, |n|, mark);
  }

  /** Two readings of a path name with marks agree on the name. */
  lemma SameName(n: string, mark: string, x: string, m: string, mark': string, y: string)
    requires n + (mark + x) == m + (mark' + y) && IsMark(mark) && IsMark(mark')
    requires !Contains(n, mark') && !Contains(m, mark)
    ensures n == m && mark + x == mark' + y
  {
    if |n| < |m| {
      MarkInside(n, mark, x, m, mark' + y);
    } else if |m| < |n| {
      MarkInside(m, mark', y, n, mark + x);
    }
    assert (n + (mark + x))[..|n|] == n && (m + (mark' + y))[..|m|] == m;
    assert (n + (mark + x))[|n|..] == mark + x && (m + (mark' + y))[|m|..] == mark' + y;
  }

  /** The user and the index of a copy can be read off its path name: the digits contain no underscore. */
  lemma SameSession(u: string, i: nat, v: string, j: nat)
    requires u + "_" + Decimal.Digits(i) == v + "_" + Decimal.Digits(j)
    ensures u == v && i == j
  {
    var d, e := Decimal.Digits(i), Decimal.Digits(j);
    var s := u + "_" + d;
    assert s == v + "_" + e;
    assert s[|u|] == '_' && s[|v|] == '_';
    assert forall x :: |u| < x < |s| ==> s[x] == d[x - |u| - 1];
    assert forall x :: |v| < x < |s| ==> s[x] == e[x - |v| - 1];
    assert |u| == |v|;
    assert s[..|u|] == u && s[..|v|] == v && s[|u| + 1..] == d && s[|v| + 1..] == e;
    Decimal.ValueOfDigits(i);
    Decimal.ValueOfDigits(j);
  }

  /** The part of a path name behind the file's own name. */
  function Suffix(p: Path): string {
    match p
    case Main(_) => ""
    case Undo(_) => UNDO
    case Checkpoint(_, tag) => CHECKPOINT + tag
    case Copy(_, user, index) => TEMP + (user + "_" + Decimal.Digits(index))
  }

  function Mark(p: Path): string
    requires !p.Main?
  {
    match p
    case Undo(_) => UNDO
    case Checkpoint(_, _) => CHECKPOINT
    case Copy(_, _, _) => TEMP
  }

  lemma RenderIsSuffix(p: Path)
    ensures Render(p) == p.name + Suffix(p)
    ensures !p.Main? ==> Mark(p) <= Suffix(p) && IsMark(Mark(p))
  {
  }

  /** Different files have different path names, as long as stored files have plain names. */
  lemma RenderIsInjective(p: Path, q: Path)
    requires Plain(p.name) && Plain(q.name)
    ensures Render(p) == Render(q) <==> p == q
  {
    RenderIsSuffix(p);
    RenderIsSuffix(q);
    if Render(p) == Render(q) && !(p.Main? && q.Main?) {
      SamePath(p, q);
    }
  }

  lemma SamePath(p: Path, q: Path)
    requires Plain(p.name) && Plain(q.name) && Render(p) == Render(q) && !(p.Main? && q.Main?)
    ensures p == q
  {
    RenderIsSuffix(p);
    RenderIsSuffix(q);
    assert !p.Main? ==> Suffix(p) == Mark(p) + Suffix(p)[|Mark(p)|..];
    assert !q.Main? ==> Suffix(q) == Mark(q) + Suffix(q)[|Mark(q)|..];
    if p.Main? {
      NotMain(q, p);
    } else if q.Main? {
      NotMain(p, q);
    } else {
      SameName(p.name, Mark(p), Suffix(p)[|Mark(p)|..], q.name, Mark(q), Suffix(q)[|Mark(q)|..]);
      SameSuffix(p, q);
    }
  }

  lemma NotMain(p: Path, q: Path)
    requires !p.Main? && q.Main? && Plain(q.name)
    ensures Render(p) != Render(q)
  {
    RenderIsSuffix(p);
    var s := Render(p);
    assert s[|p.name|..|p.name| + |Mark(p)|] == Mark(p);
    assert StartsAt(s, |p.name|, Mark(p));
  }

  lemma SameSuffix(p: Path, q: Path)
    requires !p.Main? && !q.Main? && p.name == q.name && Suffix(p) == Suffix(q)
    ensures p == q
  {
    assert Suffix(p)[1] == Mark(p)[1] && Suffix(q)[1] == Mark(q)[1];
    assert Suffix(p)[|Mark(p)|..] == Suffix(q)[|Mark(p)|..];
    if p.Copy? {
      SameSession(p.user, p.index, q.user, q.index);
    }
  }
}
