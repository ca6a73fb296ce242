/** Which navigation item a path belongs to, and the breadcrumbs after it. */
module Navigation {
  import opened Text
  import opened LongestMatch

  datatype NavItem = NavItem(name: string, href: string)

  /** The path is the item's, or lies below it. */
  predicate Under(path: string, item: NavItem) {
    path == item.href || item.href + "/" <= path
  }

  function HrefLength(item: NavItem): nat {
    |item.href|
  }

  function FindNavItem(path: string, items: seq<NavItem>): Option<NavItem> {
    FindLongest(items, HrefLength, (item: NavItem) => Under(path, item))
  }

  /** `split("/")`, without the empty pieces; `piece` is the segment being read. */
  function SegmentsFrom(piece: string, rest: string): seq<string>
    decreases |rest|
  {
    if rest == "" then (if piece == "" then [] else [piece])
    else if rest[0] == '/' then (if piece == "" then [] else [piece]) + SegmentsFrom("", rest[1..])
    else SegmentsFrom(piece + [rest[0]], rest[1..])
  }

  function Segments(path: string): seq<string> {
    SegmentsFrom("", path)
  }

  function Depth(path: string, items: seq<NavItem>): nat {
    match FindNavItem(path, items)
    case None => 0
    case Some(item) => |Segments(item.href)|
  }

  /** The segments shown after the item's own name. */
  function Breadcrumbs(path: string, items: seq<NavItem>): seq<string> {
    if Depth(path, items) <= |Segments(path)| then Segments(path)[Depth(path, items)..] else []
  }

  lemma {:induction false} SegmentsAcrossSlash(piece: string, a: string, b: string)
    ensures SegmentsFrom(piece, a + "/" + b) == SegmentsFrom(piece, a) + Segments(b)
    decreases |a|
  {
    var s := a + "/" + b;
    if a == "" {
      assert s == "/" + b && s[1..] == b;
    } else {
      assert s[1..] == a[1..] + "/" + b;
      if a[0] == '/' {
        SegmentsAcrossSlash("", a[1..], b);
      } else {
        SegmentsAcrossSlash(piece + [a[0]], a[1..], b);
      }
    }
  }

  /** Each slash ends a segment, and what holds no slash is one, unless there is nothing of it. */
  lemma SegmentsExactly(word: string, a: string, b: string)
    requires '/' !in word
    ensures Segments(word) == if word == "" then [] else [word]
    ensures Segments(a + "/" + b) == Segments(a) + Segments(b)
  {
    WordIsSegment("", word);
    SegmentsAcrossSlash("", a, b);
    assert "" + word == word;
  }

  lemma {:induction false} WordIsSegment(piece: string, rest: string)
    requires '/' !in rest
    ensures SegmentsFrom(piece, rest) == if piece + rest == "" then [] else [piece + rest]
    decreases |rest|
  {
    if rest == "" {
      assert piece + rest == piece;
    } else {
      assert rest[0] in rest && piece + [rest[0]] + rest[1..] == piece + rest;
      WordIsSegment(piece + [rest[0]], rest[1..]);
    }
  }

  /** A path under an item begins with the item's segments. */
  lemma UnderBeginsWith(path: string, item: NavItem)
    requires Under(path, item)
    ensures Segments(item.href) <= Segments(path)
  {
    if path != item.href {
      var rest := path[|item.href| + 1..];
      assert path == item.href + "/" + rest;
      SegmentsAcrossSlash("", item.href, rest);
    }
  }

  lemma {:induction false} SegmentsHaveNoSlash(piece: string, rest: string)
    requires '/' !in piece
    ensures forall s | s in SegmentsFrom(piece, rest) :: s != "" && '/' !in s
    decreases |rest|
  {
    if rest != "" {
      if rest[0] == '/' {
        SegmentsHaveNoSlash("", rest[1..]);
      } else {
        SegmentsHaveNoSlash(piece + [rest[0]], rest[1..]);
      }
    }
  }

  /** The item's segments followed by the breadcrumbs are exactly the path's segments; with no item,
      the breadcrumbs are all of them. */
  lemma BreadcrumbsComplete(path: string, items: seq<NavItem>)
    ensures match FindNavItem(path, items)
            case None => Breadcrumbs(path, items) == Segments(path)
            case Some(item) => Segments(item.href) + Breadcrumbs(path, items) == Segments(path)
    ensures forall s | s in Breadcrumbs(path, items) :: s != "" && '/' !in s
  {
    SegmentsHaveNoSlash("", path);
    if FindNavItem(path, items).Some? {
      UnderBeginsWith(path, FindNavItem(path, items).value);
    }
  }

  lemma SameLengthSameHref(path: string, a: NavItem, b: NavItem)
    requires Under(path, a) && Under(path, b) && |a.href| == |b.href|
    ensures a.href == b.href
  {
    assert path[..|a.href|] == a.href && path[..|b.href|] == b.href;
  }

  /** Among items of distinct addresses, the one found is the only longest one the path is under,
      whatever order the items are listed in; nothing is found only when the path is under none. */
  lemma FindsTheLongest(path: string, items: seq<NavItem>, item: NavItem)
    requires forall i, j | 0 <= i < j < |items| :: items[i].href != items[j].href
    ensures FindNavItem(path, items) == Some(item) <==>
            && item in items && (path == item.href || item.href + "/" <= path)
            && forall other | other in items && (path == other.href || other.href + "/" <= path) && other != item ::
                 |other.href| < |item.href|
    ensures FindNavItem(path, items).None? <==>
            forall other | other in items :: path != other.href && !(other.href + "/" <= path)
  {
    var k := FindsFirstLongest(items, HrefLength, (i: NavItem) => Under(path, i));
    if FindNavItem(path, items).Some? {
      forall j | 0 <= j < |items| && Under(path, items[j]) && |items[j].href| == |items[k].href|
        ensures j == k
      {
        SameLengthSameHref(path, items[j], items[k]);
      }
    }
  }
}
