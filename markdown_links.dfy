/** `IndeedScraper.remove_links_from_markdown`: the substitution of the pattern
    `\[([^]]+)]\(([^)]+)\)` by `[text](replace_with)`, leftmost first and without overlap,
    followed by the removal of every newline. The regular expression is modelled as a scanner. */
module Markdown {
  import opened Base
  import opened Strings

  /** The default replacement target. */
  const UrlRemoved: string := "<url removed>"

  datatype Link = Link(text: string, target: string)

  /** What the pattern matches for a link with this text and target. */
  function LinkText(text: string, target: string): string {
    "[" + text + "](" + target + ")"
  }

  /** `[^]]+` and `[^)]+`: a non-empty text without `]`, a non-empty target without `)`. */
  predicate WellFormed(l: Link) {
    |l.text| > 0 && ']' !in l.text && |l.target| > 0 && ')' !in l.target
  }

  /** The first index at or after `i` that holds `c`, or `|s|` when there is none. */
  function FindFrom(s: string, i: nat, c: char): (r: nat)
    requires i <= |s|
    ensures i <= r <= |s|
    ensures forall k :: i <= k < r ==> s[k] != c
    ensures r < |s| ==> s[r] == c
    decreases |s| - i
  {
    if i == |s| || s[i] == c then i else FindFrom(s, i + 1, c)
  }

  lemma {:induction false} FindFromIs(s: string, i: nat, c: char, r: nat)
    requires i <= r < |s| && s[r] == c
    requires forall k :: i <= k < r ==> s[k] != c
    ensures FindFrom(s, i, c) == r
    decreases r - i
  {
    if i < r {
      FindFromIs(s, i + 1, c, r);
    }
  }

  /** The match of the pattern at the start of `s`, if any. */
  function LinkAt(s: string): (r: Option<Link>)
    ensures r.Some? ==> WellFormed(r.value) && StartsWith(s, LinkText(r.value.text, r.value.target))
  {
    if |s| == 0 || s[0] != '[' then None
    else
      var j := FindFrom(s, 1, ']');
      if j == 1 || j + 1 >= |s| || s[j + 1] != '(' then None
      else
        var k := FindFrom(s, j + 2, ')');
        if k == j + 2 || k == |s| then None
        else
          var l := Link(s[1..j], s[j + 2..k]);
          assert s[..k + 1] == LinkText(l.text, l.target);
          Some(l)
  }

  /** The scanner finds every match of the pattern: a well-formed link at the start of the
      input is found, with exactly its text and target. */
  lemma {:induction false} LinkAtFinds(s: string, l: Link)
    requires WellFormed(l) && StartsWith(s, LinkText(l.text, l.target))
    ensures LinkAt(s) == Some(l)
  {
    var t := LinkText(l.text, l.target);
    assert s[..|t|] == t;
    var j := 1 + |l.text|;
    forall k | 1 <= k < j ensures s[k] == l.text[k - 1] && s[k] != ']' {
      assert s[k] == t[k];
    }
    assert s[1..j] == l.text;
    assert s[j] == t[j] == ']';
    FindFromIs(s, 1, ']', j);
    assert s[j + 1] == t[j + 1] == '(';
    var k := j + 2 + |l.target|;
    forall m | j + 2 <= m < k ensures s[m] == l.target[m - j - 2] && s[m] != ')' {
      assert s[m] == t[m];
    }
    assert s[j + 2..k] == l.target;
    assert s[k] == t[k] == ')';
    FindFromIs(s, j + 2, ')', k);
  }

  /** `re.sub(pattern, replace_link, s)`: at each position either rewrite the link found there
      and continue after it, or keep one character and move on. */
  function Rewrite(s: string, replaceWith: string): string
    decreases |s|
  {
    if s == [] then []
    else
      match LinkAt(s)
      case Some(l) =>
        LinkText(l.text, replaceWith) + Rewrite(s[|LinkText(l.text, l.target)|..], replaceWith)
      case None => [s[0]] + Rewrite(s[1..], replaceWith)
  }

  /** `.replace('\n', '')`. */
  function DropNewlines(s: string): (r: string)
    ensures '\n' !in r
    ensures |r| <= |s|
    ensures '\n' !in s ==> r == s
    decreases |s|
  {
    if s == [] then [] else (if s[0] == '\n' then [] else [s[0]]) + DropNewlines(s[1..])
  }

  /** `.replace('\n', '')` works character by character: every character but a newline is
      kept, and the kept characters stay in their order. */
  lemma {:induction false} DropNewlinesKeeps(a: string, b: string, c: char)
    ensures DropNewlines([c]) == if c == '\n' then [] else [c]
    ensures DropNewlines(a + b) == DropNewlines(a) + DropNewlines(b)
    decreases |a|
  {
    assert DropNewlines([c]) == (if c == '\n' then [] else [c]) + DropNewlines([]);
    if a == [] {
      assert a + b == b;
    } else {
      var head := if a[0] == '\n' then [] else [a[0]];
      assert (a + b)[0] == a[0] && (a + b)[1..] == a[1..] + b;
      DropNewlinesKeeps(a[1..], b, c);
      assert DropNewlines(a + b) == head + (DropNewlines(a[1..]) + DropNewlines(b));
      assert DropNewlines(a) == head + DropNewlines(a[1..]);
    }
  }

  function RemoveLinks(markdown: string, replaceWith: string): (r: string)
    ensures '\n' !in r
  {
    DropNewlines(Rewrite(markdown, replaceWith))
  }

  /** A link at the start keeps its text, gets the replacement as its target, and the
      substitution resumes right after it. */
  lemma LinkRewritten(l: Link, rest: string, replaceWith: string)
    requires WellFormed(l)
    ensures Rewrite(LinkText(l.text, l.target) + rest, replaceWith) ==
              LinkText(l.text, replaceWith) + Rewrite(rest, replaceWith)
  {
    var s := LinkText(l.text, l.target) + rest;
    assert s[..|LinkText(l.text, l.target)|] == LinkText(l.text, l.target);
    LinkAtFinds(s, l);
    assert s[|LinkText(l.text, l.target)|..] == rest;
  }

  lemma UrlRemovedOneLine()
    ensures '\n' !in UrlRemoved
  {
  }

  /** With the default `replace_with`, a link whose text holds no newline becomes that text
      followed by `(<url removed>)`. */
  lemma DefaultTargetRemoved(l: Link)
    requires WellFormed(l) && '\n' !in l.text
    ensures RemoveLinks(LinkText(l.text, l.target), UrlRemoved) == LinkText(l.text, UrlRemoved)
  {
    LinkRewritten(l, [], UrlRemoved);
    assert LinkText(l.text, l.target) + [] == LinkText(l.text, l.target);
    assert Rewrite([], UrlRemoved) == [];
    UrlRemovedOneLine();
    var t := LinkText(l.text, UrlRemoved);
    assert '\n' !in t;
    assert t + [] == t;
  }

  /** Input without `[` holds no link: it comes back only stripped of its newlines. */
  lemma {:induction false} NoBracketUnchanged(s: string, replaceWith: string)
    requires '[' !in s
    ensures Rewrite(s, replaceWith) == s
    ensures RemoveLinks(s, replaceWith) == DropNewlines(s)
    decreases |s|
  {
    if s != [] {
      NoBracketUnchanged(s[1..], replaceWith);
      assert [s[0]] + s[1..] == s;
    }
  }

  /** An independent reading of the substitution: the input cut into kept characters and links. */
  datatype Piece = Char(c: char) | LinkPiece(link: Link)

  function Pieces(s: string): (ps: seq<Piece>)
    ensures forall k :: 0 <= k < |ps| && ps[k].LinkPiece? ==> WellFormed(ps[k].link)
    decreases |s|
  {
    if s == [] then []
    else
      match LinkAt(s)
      case Some(l) => [LinkPiece(l)] + Pieces(s[|LinkText(l.text, l.target)|..])
      case None => [Char(s[0])] + Pieces(s[1..])
  }

  /** The text of one piece; a link gets `target` when one is given, else its own. */
  function PieceText(p: Piece, target: Option<string>): string {
    match p
    case Char(c) => [c]
    case LinkPiece(l) => LinkText(l.text, if target.Some? then target.value else l.target)
  }

  /** The text of the pieces, with each link's target as given. */
  function Unparse(ps: seq<Piece>, target: Option<string>): string
    decreases |ps|
  {
    if ps == [] then [] else PieceText(ps[0], target) + Unparse(ps[1..], target)
  }

  lemma UnparseCons(p: Piece, ps: seq<Piece>, target: Option<string>)
    ensures Unparse([p] + ps, target) == PieceText(p, target) + Unparse(ps, target)
  {
    assert ([p] + ps)[1..] == ps;
  }

  lemma PiecesLinkStep(s: string, l: Link)
    requires s != [] && LinkAt(s) == Some(l)
    ensures Unparse(Pieces(s), None) ==
              LinkText(l.text, l.target) + Unparse(Pieces(s[|LinkText(l.text, l.target)|..]), None)
  {
    UnparseCons(LinkPiece(l), Pieces(s[|LinkText(l.text, l.target)|..]), None);
  }

  lemma PiecesCharStep(s: string)
    requires s != [] && LinkAt(s).None?
    ensures Unparse(Pieces(s), None) == [s[0]] + Unparse(Pieces(s[1..]), None)
  {
    UnparseCons(Char(s[0]), Pieces(s[1..]), None);
  }

  /** Cutting loses nothing: the pieces, written out with their own targets, are the input. */
  lemma {:induction false} PiecesRoundTrip(s: string)
    ensures Unparse(Pieces(s), None) == s
    decreases |s|
  {
    if s != [] {
      match LinkAt(s)
      case Some(l) =>
        var t := LinkText(l.text, l.target);
        PiecesRoundTrip(s[|t|..]);
        PiecesLinkStep(s, l);
        assert s[..|t|] == t;
        assert s == t + s[|t|..];
      case None =>
        PiecesRoundTrip(s[1..]);
        PiecesCharStep(s);
        assert s == [s[0]] + s[1..];
    }
  }

  /** The substitution writes out the same pieces with every target replaced. */
  lemma {:induction false} RewriteReplacesTargets(s: string, replaceWith: string)
    ensures Rewrite(s, replaceWith) == Unparse(Pieces(s), Some(replaceWith))
    decreases |s|
  {
    if s != [] {
      match LinkAt(s)
      case Some(l) =>
        var n := |LinkText(l.text, l.target)|;
        RewriteReplacesTargets(s[n..], replaceWith);
        UnparseCons(LinkPiece(l), Pieces(s[n..]), Some(replaceWith));
      case None =>
        RewriteReplacesTargets(s[1..], replaceWith);
        UnparseCons(Char(s[0]), Pieces(s[1..]), Some(replaceWith));
    }
  }
}
