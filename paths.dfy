/**
 * The dotted-path rule shared by both tree searches: a path is cut at its
 * first '.', the part before it scopes the current group and the part after
 * it is handed to every child.
 */
module Paths {

  /** The two halves of a path cut at its first dot. */
  datatype PathSplit = PathSplit(current: string, next: string)

  /** The position of the first `c` in `s`, or -1 when there is none. */
  function Find(s: string, c: char): (r: int)
    ensures -1 <= r < |s|
    ensures r == -1 <==> c !in s
    ensures r >= 0 ==> s[r] == c && c !in s[..r]
  {
    if s == [] then -1
    else if s[0] == c then 0
    else
      var k := Find(s[1..], c);
      if k < 0 then -1
      else
        assert s[..k + 1] == [s[0]] + s[1..][..k];
        k + 1
  }

  /**
   * Cuts `path` at its first dot. Without a dot the whole path is current
   * and nothing is left for the children.
   */
  function Split(path: string): (r: PathSplit)
    ensures '.' !in r.current
    ensures '.' in path ==> path == r.current + "." + r.next
    ensures '.' !in path ==> r.current == path && r.next == ""
  {
    var found := Find(path, '.');
    if found < 0 then PathSplit(path, "")
    else
      assert path == path[..found] + "." + path[found + 1..];
      PathSplit(path[..found], path[found + 1..])
  }

  /** A group captioned `caption` continues the search along `path`. */
  predicate InScope(caption: string, path: string)
  {
    var s := Split(path);
    caption == s.current || s.current == ""
  }

  /** In a path made of a dot-free head, a dot and a tail, the first dot ends the head. */
  lemma {:induction false} FindAfterHead(path: string, head: string, tail: string)
    requires '.' !in head && path == head + "." + tail
    ensures Find(path, '.') == |head|
  {
    if head != [] {
      assert path[0] == head[0];
      assert path[1..] == head[1..] + "." + tail;
      FindAfterHead(path[1..], head[1..], tail);
    }
  }

  /**
   * The split is unique: any cut of `path` into a dot-free head, a dot and a
   * tail is the one `Split` makes.
   */
  lemma SplitUnique(path: string, head: string, tail: string)
    requires '.' !in head && path == head + "." + tail
    ensures Split(path) == PathSplit(head, tail)
  {
    FindAfterHead(path, head, tail);
    assert path[..|head|] == head && path[|head| + 1..] == tail;
  }

  /** The empty path, and any path with an empty first segment, scopes nothing out. */
  lemma EmptyCurrentIsWildcard(caption: string, rest: string)
    ensures Split("") == PathSplit("", "")
    ensures InScope(caption, "")
    ensures InScope(caption, "." + rest) && Split("." + rest).next == rest
  {
    SplitUnique("." + rest, "", rest);
  }
}
