/**
  Documentation links in method comments: the canonical form of a REST
  documentation URL, when two links name the same page, and the rewrite of a
  method's doc comment so that it lists the links of its operations.
*/
module DocLinks {
  import opened Options
  import opened Text
  import opened Sorting
  import opened GoAst
  import opened Patterns
  import opened Metadata

  const DocsHost := "https://docs.github.com"
  const DocURLPrefix := "https://docs.github.com/rest/"
  const EnterpriseCloud := "docs.github.com/enterprise-cloud@latest/"
  const EnterpriseServer := "docs.github.com/enterprise-server"

  // ---------------------------------------------------------------------
  // `^https://docs\.github\.com.*/rest/`

  /** A match of the pattern ends at `e`: `.` does not match a newline. */
  predicate RestEndsAt(u: string, e: nat) {
    |DocsHost| + 6 <= e <= |u| && u[e - 6..e] == "/rest/" && '\n' !in u[|DocsHost|..e - 6]
  }

  function LastRestEnd(u: string, e: nat): (r: Option<nat>)
    requires e <= |u|
    ensures r.Some? ==> r.value <= e && RestEndsAt(u, r.value)
  {
    if e < |DocsHost| + 6 then None
    else if RestEndsAt(u, e) then Some(e)
    else LastRestEnd(u, e - 1)
  }

  /** No match ends after the one found, and none at all when none is found. */
  lemma {:induction false} LastRestEndIsLast(u: string, e: nat)
    requires e <= |u|
    ensures LastRestEnd(u, e).Some? ==> forall k :: LastRestEnd(u, e).value < k <= e ==> !RestEndsAt(u, k)
    ensures LastRestEnd(u, e).None? ==> forall k: nat :: k <= e ==> !RestEndsAt(u, k)
  {
    if e >= |DocsHost| + 6 && !RestEndsAt(u, e) {
      LastRestEndIsLast(u, e - 1);
    }
  }

  /** The end of the pattern's match in `u`, when it matches. */
  function DocPrefix(u: string): (r: Option<nat>)
    ensures r.Some? ==> HasPrefix(u, DocsHost) && RestEndsAt(u, r.value)
  {
    if HasPrefix(u, DocsHost) then LastRestEnd(u, |u|) else None
  }

  /** `.*` is greedy, so the match ends at the last `/rest/`; no match iff no `/rest/` follows the host. */
  lemma DocPrefixGreedy(u: string)
    ensures DocPrefix(u).Some? ==> forall k :: DocPrefix(u).value < k <= |u| ==> !RestEndsAt(u, k)
    ensures DocPrefix(u).None? <==> !HasPrefix(u, DocsHost) || forall k: nat :: k <= |u| ==> !RestEndsAt(u, k)
  {
    LastRestEndIsLast(u, |u|);
  }

  /**
    normalizeDocURLPath: drop the first `/en/`; a REST page on the public
    documentation site is rewritten to the canonical prefix, the enterprise
    cloud double slash is removed, and enterprise server pages are kept.
  */
  function NormalizeDocURLPath(u: string): (r: string)
    ensures DocPrefix(ReplaceFirst(u, "/en/", "/")).None? ==> r == ReplaceFirst(u, "/en/", "/")
  {
    var u1 := ReplaceFirst(u, "/en/", "/");
    match DocPrefix(u1)
    case None => u1
    case Some(e) =>
      if Contains(u1, EnterpriseCloud) then ReplaceAll(u1, EnterpriseCloud + "/", EnterpriseCloud)
      else if Contains(u1, EnterpriseServer) then u1
      else DocURLPrefix + u1[e..]
  }

  /**
    The public-site case gives the canonical form: the canonical prefix, then
    what followed the last `/rest/`, and the canonical prefix is then the
    pattern's whole match.
  */
  lemma NormalizeCanonical(u: string)
    requires var u1 := ReplaceFirst(u, "/en/", "/");
      DocPrefix(u1).Some? && !Contains(u1, EnterpriseCloud) && !Contains(u1, EnterpriseServer)
    ensures var u1 := ReplaceFirst(u, "/en/", "/");
      var r := NormalizeDocURLPath(u);
      && r == DocURLPrefix + u1[DocPrefix(u1).value..]
      && DocPrefix(r) == Some(|DocURLPrefix|)
  {
    var u1 := ReplaceFirst(u, "/en/", "/");
    DocPrefixGreedy(u1);
    CanonicalPrefix(u1, DocPrefix(u1).value);
  }

  /** Replacing everything up to the last `/rest/` with the canonical prefix leaves no later `/rest/`. */
  lemma CanonicalPrefix(u1: string, e: nat)
    requires HasPrefix(u1, DocsHost) && RestEndsAt(u1, e)
    requires forall k :: e < k <= |u1| ==> !RestEndsAt(u1, k)
    ensures DocPrefix(DocURLPrefix + u1[e..]) == Some(|DocURLPrefix|)
  {
    var r := DocURLPrefix + u1[e..];
    var n := |DocURLPrefix|;
    assert r[..|DocsHost|] == DocsHost;
    assert r[n - 6..n] == "/rest/";
    assert r[|DocsHost|..n - 6] == [];
    assert RestEndsAt(r, n);
    forall k | n < k <= |r| ensures !RestEndsAt(r, k) {
      if RestEndsAt(r, k) {
        ShiftedRestEnd(u1, e, k);
      }
    }
    LastRestEndIsLast(r, |r|);
  }

  /** A `/rest/` ending at `k` past the canonical prefix is one ending `e - n` later in the input. */
  /** Past the host, the canonical prefix followed by the rest of the input reads as the input from its `/rest/`. */
  lemma CanonicalAfterHost(u1: string, e: nat)
    requires RestEndsAt(u1, e)
    ensures (DocURLPrefix + u1[e..])[|DocsHost|..] == u1[e - 6..]
  {
    assert DocURLPrefix == DocsHost + "/rest/";
    assert (DocURLPrefix + u1[e..])[|DocsHost|..] == "/rest/" + u1[e..];
    assert u1[e - 6..] == u1[e - 6..e] + u1[e..];
  }

  lemma ShiftedRestEnd(u1: string, e: nat, k: nat)
    requires RestEndsAt(u1, e) && |DocURLPrefix| < k && RestEndsAt(DocURLPrefix + u1[e..], k)
    ensures RestEndsAt(u1, k + e - |DocURLPrefix|)
  {
    var r := DocURLPrefix + u1[e..];
    var h := |DocsHost|;
    var k1 := k + e - |DocURLPrefix|;
    var s := u1[e - 6..];
    CanonicalAfterHost(u1, e);
    assert u1[k1 - 6..k1] == s[k - h - 6..k - h] == r[h..][k - h - 6..k - h] == r[k - 6..k];
    assert u1[h..k1 - 6] == u1[h..e - 6] + s[..k - 6 - h];
    assert s[..k - 6 - h] == r[h..][..k - 6 - h] == r[h..k - 6];
  }

  // ---------------------------------------------------------------------
  // stripURLQuery

  /**
    stripURLQuery: the query between the first `?` and the fragment removed;
    a `?` inside the fragment is not a query, and a lone trailing `?` with an
    empty query is kept, as the URL parser records it.
  */
  function StripURLQuery(u: string): (r: string)
    ensures |r| <= |u|
  {
    var (base, frag, hasFrag) := Cut(u, '#');
    var (path, query, hasQuery) := Cut(base, '?');
    if !hasQuery || (query == "" ) then u
    else path + (if hasFrag then "#" + frag else "")
  }

  /** Stripping the query twice is stripping it once. */
  lemma StripURLQueryIdempotent(u: string)
    ensures StripURLQuery(StripURLQuery(u)) == StripURLQuery(u)
  {
    var (base, frag, hasFrag) := Cut(u, '#');
    var (path, query, hasQuery) := Cut(base, '?');
    if hasQuery && query != "" {
      var r := path + (if hasFrag then "#" + frag else "");
      assert '#' !in path by {
        assert base == path + ['?'] + query;
      }
      if hasFrag {
        IndexOfPrefix(path, '#', frag);
        assert r == path + ['#'] + frag;
        assert Cut(r, '#') == (path, frag, true);
      } else {
        assert r == path;
        assert Cut(r, '#') == (path, "", false);
      }
      assert '?' !in path;
      assert Cut(path, '?') == (path, "", false);
    }
  }

  // ---------------------------------------------------------------------
  // sameDocLink

  /** sameDocLink: REST pages compare without the query and after normalising; other links compare exactly. */
  predicate SameDocLink(left: string, right: string) {
    if DocPrefix(left).None? || DocPrefix(right).None? then left == right
    else StripURLQuery(NormalizeDocURLPath(left)) == StripURLQuery(NormalizeDocURLPath(right))
  }

  /** sameDocLink is an equivalence. */
  lemma SameDocLinkEquivalence(a: string, b: string, c: string)
    ensures SameDocLink(a, a)
    ensures SameDocLink(a, b) ==> SameDocLink(b, a)
    ensures SameDocLink(a, b) && SameDocLink(b, c) ==> SameDocLink(a, c)
  {
  }

  // ---------------------------------------------------------------------
  // The doc-comment rewrite of updateDocsLinksForNode

  /** The first link still present, in the map's iteration order, that names the same page. */
  function MatchLink(link: string, present: set<string>, order: seq<string>): (r: Option<string>)
    ensures r.Some? ==> r.value in present && SameDocLink(link, r.value)
    ensures r.Some? ==> r.value in order
    ensures r.None? ==> forall l :: l in present && l in order ==> !SameDocLink(link, l)
    ensures (forall l :: l in present ==> l in order) ==>
              (r.None? <==> forall l :: l in present ==> !SameDocLink(link, l))
  {
    if |order| == 0 then None
    else if order[0] in present && SameDocLink(link, order[0]) then Some(order[0])
    else MatchLink(link, present, order[1..])
  }

  /**
    The comment lines that stay: other lines, and doc lines whose link
    matches a link still present, which is then used up; the links left over.
  */
  function KeepDocLines(comments: seq<string>, links: set<string>, order: seq<string>): (r: (seq<string>, set<string>))
    requires forall l :: l in links ==> l in order
    ensures r.1 <= links
    ensures |r.0| <= |comments|
    ensures |links - r.1| <= |r.0|
  {
    if |comments| == 0 then ([], links)
    else
      var (kept, present) := KeepDocLines(comments[..|comments| - 1], links, order);
      var c := comments[|comments| - 1];
      match DocLink(c)
      case None => (kept + [c], present)
      case Some(m) =>
        match MatchLink(m, present, order)
        case None => (kept, present)
        case Some(l) =>
          assert links - (present - {l}) == (links - present) + {l};
          (kept + [c], present - {l})
  }

  /** The lines without a doc link, in order. */
  function OtherLines(lines: seq<string>): seq<string> {
    if |lines| == 0 then []
    else OtherLines(lines[..|lines| - 1]) + (if DocLink(lines[|lines| - 1]).None? then [lines[|lines| - 1]] else [])
  }

  /** Every line without a doc link is kept, in order, and every kept line is one of the comments. */
  lemma {:induction false} KeepsOtherLines(comments: seq<string>, links: set<string>, order: seq<string>)
    requires forall l :: l in links ==> l in order
    ensures OtherLines(KeepDocLines(comments, links, order).0) == OtherLines(comments)
    ensures forall c :: c in KeepDocLines(comments, links, order).0 ==> c in comments
  {
    if |comments| > 0 {
      var prefix := comments[..|comments| - 1];
      KeepsOtherLines(prefix, links, order);
      var kept := KeepDocLines(prefix, links, order).0;
      var r := KeepDocLines(comments, links, order).0;
      var c := comments[|comments| - 1];
      KeepDocLinesLast(comments, links, order);
      if r == kept {
        assert DocLink(c).Some?;
        assert OtherLines(r) == OtherLines(comments);
      } else {
        assert r == kept + [c];
        OtherLinesSnoc(kept, c);
        assert OtherLines(r) == OtherLines(comments);
      }
      forall x | x in r
        ensures x in comments
      {
        if x != c {
          assert x in kept;
        }
      }
    }
  }

  /** The last comment line is either kept or dropped, and it is always kept when it has no doc link. */
  lemma KeepDocLinesLast(comments: seq<string>, links: set<string>, order: seq<string>)
    requires |comments| > 0
    requires forall l :: l in links ==> l in order
    ensures var kept := KeepDocLines(comments[..|comments| - 1], links, order).0;
            var r := KeepDocLines(comments, links, order).0;
            (r == kept || r == kept + [comments[|comments| - 1]])
            && (DocLink(comments[|comments| - 1]).None? ==> r == kept + [comments[|comments| - 1]])
  {
  }

  /**
    A doc line is kept exactly when a link still present names the same page,
    and keeping it uses up one such link; a dropped line uses up nothing.
  */
  lemma KeepDocLineIff(comments: seq<string>, links: set<string>, order: seq<string>)
    requires |comments| > 0 && DocLink(comments[|comments| - 1]).Some?
    requires forall l :: l in links ==> l in order
    ensures var (kept, present) := KeepDocLines(comments[..|comments| - 1], links, order);
            var m := DocLink(comments[|comments| - 1]).value;
            var r := KeepDocLines(comments, links, order);
            && (r.0 == kept + [comments[|comments| - 1]] <==> exists l :: l in present && SameDocLink(m, l))
            && (r.0 == kept ==> r.1 == present)
            && (r.0 != kept ==> exists l :: l in present && SameDocLink(m, l) && r.1 == present - {l})
  {
    var (kept, present) := KeepDocLines(comments[..|comments| - 1], links, order);
    var m := DocLink(comments[|comments| - 1]).value;
    var found := MatchLink(m, present, order);
    if found.Some? {
      assert found.value in present && SameDocLink(m, found.value);
    } else {
      assert |KeepDocLines(comments, links, order).0| == |kept|;
    }
  }

  /** One more line at the end adds it to the other lines exactly when it has no doc link. */
  lemma OtherLinesSnoc(lines: seq<string>, c: string)
    ensures OtherLines(lines + [c]) == OtherLines(lines) + (if DocLink(c).None? then [c] else [])
  {
    assert (lines + [c])[..|lines|] == lines;
  }

  /** Trailing empty comment lines removed. */
  function TrimEmpty(lines: seq<string>): (r: seq<string>)
    ensures r <= lines
    ensures |r| > 0 ==> !IsEmptyLine(r[|r| - 1])
    ensures forall k :: |r| <= k < |lines| ==> IsEmptyLine(lines[k])
  {
    if |lines| > 0 && IsEmptyLine(lines[|lines| - 1]) then TrimEmpty(lines[..|lines| - 1]) else lines
  }

  /** The doc-link line of one link, normalised. */
  function NormalizedLinkLine(link: string): string {
    DocLinkLine(NormalizeDocURLPath(link))
  }

  /** The doc-link lines for the links, each link normalised. */
  function LinkLines(links: seq<string>): (r: seq<string>)
    ensures |r| == |links|
    ensures forall k :: 0 <= k < |links| ==> r[k] == NormalizedLinkLine(links[k])
    ensures forall k :: 0 <= k < |r| ==> IsDocLine(r[k]) && !IsEmptyLine(r[k])
  {
    var r := seq(|links|, k requires 0 <= k < |links| => NormalizedLinkLine(links[k]));
    assert forall k :: 0 <= k < |r| ==> IsDocLine(r[k]) && !IsEmptyLine(r[k]) by {
      forall k | 0 <= k < |r| ensures IsDocLine(r[k]) && !IsEmptyLine(r[k]) {
        DocLinkLineIsDocLine(NormalizeDocURLPath(links[k]));
      }
    }
    r
  }

  /** The separator line, when links follow a non-empty comment. */
  function Separator(trimmed: seq<string>, left: set<string>): seq<string> {
    if |left| > 0 && |trimmed| > 0 && !IsEmptyLine(trimmed[|trimmed| - 1]) then ["//"] else []
  }

  /** The links of a method: the documentation URLs of its operations. */
  function LinksOf(ops: seq<Operation>): set<string> {
    set k | 0 <= k < |ops| :: DocumentationURL(ops[k])
  }

  /** Operations with the same members have the same links. */
  lemma LinksOfSameMembers(a: seq<Operation>, b: seq<Operation>)
    requires multiset(a) == multiset(b)
    ensures LinksOf(a) == LinksOf(b)
  {
    SameMembers(a, b);
    SameMembers(b, a);
    forall l | l in LinksOf(a) ensures l in LinksOf(b) {
      var k :| 0 <= k < |a| && DocumentationURL(a[k]) == l;
      assert a[k] in a;
      var j :| 0 <= j < |b| && b[j] == a[k];
    }
    forall l | l in LinksOf(b) ensures l in LinksOf(a) {
      var k :| 0 <= k < |b| && DocumentationURL(b[k]) == l;
      assert b[k] in b;
      var j :| 0 <= j < |a| && a[j] == b[k];
    }
  }

  /** The links of operations drawn from `all` are visited when every operation of `all` has its link in `order`. */
  lemma LinksInOrder(ops: seq<Operation>, all: seq<Operation>, order: seq<string>)
    requires forall x :: x in ops ==> x in all
    requires forall k :: 0 <= k < |all| ==> DocumentationURL(all[k]) in order
    ensures forall l :: l in LinksOf(ops) ==> l in order
  {
    forall l | l in LinksOf(ops) ensures l in order {
      var k :| 0 <= k < |ops| && DocumentationURL(ops[k]) == l;
      assert ops[k] in ops;
      var j :| 0 <= j < |all| && all[j] == ops[k];
    }
  }

  /** The links in sorted order, each once. */
  method SortLinks(left: set<string>) returns (links: seq<string>)
    ensures SortedBy(links, (a: string, b: string) => StrLess(a, b))
    ensures |links| == |left| && (forall l :: l in left <==> l in links)
    ensures links == SortedSet(left)
  {
    var todo := left;
    var listed: seq<string> := [];
    while todo != {}
      invariant todo <= left
      invariant forall l :: l in listed <==> l in left - todo
      invariant |listed| + |todo| == |left|
      invariant forall i, j :: 0 <= i < j < |listed| ==> listed[i] != listed[j]
      decreases |todo|
    {
      var l :| l in todo;
      assert l !in listed;
      listed := listed + [l];
      todo := todo - {l};
    }
    StrLessOrder();
    links := SortedCopy(listed, (a: string, b: string) => StrLess(a, b));
    forall l ensures l in links <==> l in listed {
      assert l in links <==> multiset(links)[l] > 0;
      assert l in listed <==> multiset(listed)[l] > 0;
    }
    assert |links| == |multiset(links)| == |multiset(listed)| == |listed|;
    DistinctSize(listed, left);
    CoverDistinct(links, left);
    forall i, j | 0 <= i < j < |links| ensures StrLess(links[i], links[j]) {
      StrLessTotal(links[i], links[j]);
    }
    SortedSetUnique(links, left);
  }

  /** The strings of a set in increasing order, each once. */
  ghost function SortedSet(s: set<string>): (r: seq<string>)
    ensures forall l :: l in r <==> l in s
    ensures forall i, j :: 0 <= i < j < |r| ==> StrLess(r[i], r[j])
    decreases |s|
  {
    if s == {} then []
    else
      HasLeast(s);
      var m :| m in s && forall x :: x in s && x != m ==> StrLess(m, x);
      [m] + SortedSet(s - {m})
  }

  /** A non-empty set of strings has a least element. */
  lemma {:induction false} HasLeast(s: set<string>)
    requires s != {}
    ensures exists m :: m in s && forall x :: x in s && x != m ==> StrLess(m, x)
    decreases |s|
  {
    var y :| y in s;
    var rest := s - {y};
    if rest == {} {
      assert s == {y};
    } else {
      HasLeast(rest);
      var m :| m in rest && forall x :: x in rest && x != m ==> StrLess(m, x);
      StrLessTotal(m, y);
      if StrLess(y, m) {
        forall x | x in s && x != y ensures StrLess(y, x) {
          if x != m {
            assert x in rest;
            StrLessTransitive(y, m, x);
          }
        }
      } else {
        forall x | x in s && x != m ensures StrLess(m, x) {
          if x != y {
            assert x in rest;
          }
        }
      }
    }
  }

  /** The only increasing listing of a set is the sorted one. */
  lemma {:induction false} SortedSetUnique(a: seq<string>, s: set<string>)
    requires forall l :: l in a <==> l in s
    requires forall i, j :: 0 <= i < j < |a| ==> StrLess(a[i], a[j])
    ensures a == SortedSet(s)
    decreases |a|
  {
    var r := SortedSet(s);
    if |a| == 0 {
      assert s == {};
    } else {
      assert a[0] in r;
      var m := r[0];
      assert r == [m] + SortedSet(s - {m});
      if a[0] != m {
        var i :| 0 <= i < |r| && r[i] == a[0];
        assert m in a;
        var j :| 0 <= j < |a| && a[j] == m;
        StrLessTransitive(a[0], m, a[0]);
        StrLessIrreflexive(a[0]);
      } else {
        IncreasingTail(a, s);
        SortedSetUnique(a[1..], s - {m});
        assert a == [m] + a[1..];
      }
    }
  }

  /** Past the first element, an increasing listing of `s` lists `s` without its first element. */
  lemma IncreasingTail(a: seq<string>, s: set<string>)
    requires |a| > 0
    requires forall l :: l in a <==> l in s
    requires forall i, j :: 0 <= i < j < |a| ==> StrLess(a[i], a[j])
    ensures forall l :: l in a[1..] <==> l in s - {a[0]}
    ensures forall i, j :: 0 <= i < j < |a[1..]| ==> StrLess(a[1..][i], a[1..][j])
  {
    var tail := a[1..];
    forall l ensures l in tail <==> l in s - {a[0]} {
      if l in tail {
        var j :| 0 <= j < |tail| && tail[j] == l;
        assert a[j + 1] == l;
        StrLessIrreflexive(a[0]);
      }
      if l in s - {a[0]} {
        var j :| 0 <= j < |a| && a[j] == l;
        assert tail[j - 1] == l;
      }
    }
  }

  /** A listing of a set as long as the set has no repeats. */
  lemma CoverDistinct(a: seq<string>, s: set<string>)
    requires forall l :: l in a <==> l in s
    requires |a| == |s|
    ensures forall i, j :: 0 <= i < j < |a| ==> a[i] != a[j]
  {
    forall i, j | 0 <= i < j < |a| ensures a[i] != a[j] {
      if a[i] == a[j] {
        var q := a[..j] + a[j + 1..];
        forall l | l in s ensures l in q {
          var k :| 0 <= k < |a| && a[k] == l;
          if k < j {
            assert q[k] == l;
          } else if k == j {
            assert q[i] == l;
          } else {
            assert q[k - 1] == l;
          }
        }
        CoverSize(q, s);
      }
    }
  }

  /** A sequence holding every element of a set is at least as long as the set. */
  lemma {:induction false} CoverSize(q: seq<string>, s: set<string>)
    requires forall l :: l in s ==> l in q
    ensures |s| <= |q|
    decreases |q|
  {
    if |q| == 0 {
      assert s == {};
    } else {
      var x := q[|q| - 1];
      var p := q[..|q| - 1];
      forall l | l in s - {x} ensures l in p {
        var i :| 0 <= i < |q| && q[i] == l;
        assert p[i] == l;
      }
      CoverSize(p, s - {x});
    }
  }

  /** A listing without repeats of a set is as long as the set. */
  lemma {:induction false} DistinctSize(listed: seq<string>, s: set<string>)
    requires forall l :: l in listed <==> l in s
    requires forall i, j :: 0 <= i < j < |listed| ==> listed[i] != listed[j]
    ensures |listed| == |s|
    decreases |listed|
  {
    if |listed| > 0 {
      var last := listed[|listed| - 1];
      var prefix := listed[..|listed| - 1];
      assert forall l :: l in prefix <==> l in s - {last} by {
        forall l ensures l in prefix <==> l in s - {last} {
          if l in prefix {
            var i :| 0 <= i < |prefix| && prefix[i] == l;
            assert listed[i] == l;
          }
          if l in s - {last} {
            assert l in listed;
            var i :| 0 <= i < |listed| && listed[i] == l;
            assert i < |listed| - 1;
            assert prefix[i] == l;
          }
        }
      }
      DistinctSize(prefix, s - {last});
    }
  }

  lemma StrLessOrder()
    ensures StrictWeakOrder((a: string, b: string) => StrLess(a, b))
  {
    forall a: string ensures !StrLess(a, a) {
      StrLessIrreflexive(a);
    }
    forall a: string, b: string, c: string | StrLess(a, b) && StrLess(b, c) ensures StrLess(a, c) {
      StrLessTransitive(a, b, c);
    }
    forall a: string, b: string | a != b ensures StrLess(a, b) || StrLess(b, a) {
      StrLessTotal(a, b);
    }
    KeyedWeakOrder((a: string, b: string) => StrLess(a, b), (a: string) => a, (a: string, b: string) => StrLess(a, b));
  }

  /**
    The comment rewrite of updateDocsLinksForNode for a method with doc lines
    `comments` and operation links `links`, the map visited in `order`: doc
    lines that name a link are kept and use it up, trailing empty lines go,
    and the unused links follow, sorted, after a separator.
  */
  method UpdateDocComments(comments: seq<string>, links: set<string>, order: seq<string>)
    returns (r: seq<string>, added: seq<string>)
    requires forall l :: l in links ==> l in order
    ensures r == UpdatedDoc(comments, links, order)
    ensures var (kept, left) := KeepDocLines(comments, links, order);
      && SortedBy(added, (a: string, b: string) => StrLess(a, b))
      && |added| == |left| && (forall l :: l in left <==> l in added)
      && r == TrimEmpty(kept) + Separator(TrimEmpty(kept), left) + LinkLines(added)
  {
    var fnComments, present := KeepMatchingLines(comments, links, order);
    fnComments := TrimEmptyLines(fnComments);
    var separator: seq<string> := [];
    if |present| > 0 && |fnComments| > 0 && !IsEmptyLine(fnComments[|fnComments| - 1]) {
      separator := ["//"];
    }
    assert separator == Separator(fnComments, present);
    added := SortLinks(present);
    var more := AppendLinkLines(added);
    r := fnComments + separator + more;
  }

  /**
    The rewritten comment: the kept lines without trailing empty lines, the
    separator, and a doc-link line for each unused link in sorted order.
  */
  ghost function UpdatedDoc(comments: seq<string>, links: set<string>, order: seq<string>): seq<string>
    requires forall l :: l in links ==> l in order
  {
    var (kept, left) := KeepDocLines(comments, links, order);
    TrimEmpty(kept) + Separator(TrimEmpty(kept), left) + LinkLines(SortedSet(left))
  }

  /** The first loop of updateDocsLinksForNode: keep other lines and doc lines that use up a link. */
  method KeepMatchingLines(comments: seq<string>, links: set<string>, order: seq<string>)
    returns (fnComments: seq<string>, present: set<string>)
    requires forall l :: l in links ==> l in order
    ensures (fnComments, present) == KeepDocLines(comments, links, order)
  {
    fnComments := [];
    present := links;
    var i := 0;
    while i < |comments|
      invariant 0 <= i <= |comments|
      invariant KeepDocLines(comments[..i], links, order) == (fnComments, present)
    {
      assert comments[..i + 1][..i] == comments[..i];
      var comment := comments[i];
      var m := DocLink(comment);
      if m.None? {
        fnComments := fnComments + [comment];
      } else {
        var link := FindLink(m.value, present, order);
        if link.Some? {
          present := present - {link.value};
          fnComments := fnComments + [comment];
        }
      }
      i := i + 1;
    }
    assert comments[..i] == comments;
  }

  /** The inner loop over the links: the first one present that names the same page. */
  method FindLink(m: string, present: set<string>, order: seq<string>) returns (r: Option<string>)
    ensures r == MatchLink(m, present, order)
  {
    var j := 0;
    while j < |order|
      invariant 0 <= j <= |order|
      invariant MatchLink(m, present, order[j..]) == MatchLink(m, present, order)
    {
      MatchLinkStep(m, present, order, j);
      if order[j] in present && SameDocLink(m, order[j]) {
        return Some(order[j]);
      }
      j := j + 1;
    }
    assert order[j..] == [];
    r := None;
  }

  /** One turn of the search: the link at `j` if it matches, else the search from `j + 1`. */
  lemma MatchLinkStep(link: string, present: set<string>, order: seq<string>, j: nat)
    requires j < |order|
    ensures MatchLink(link, present, order[j..])
            == if order[j] in present && SameDocLink(link, order[j]) then Some(order[j])
               else MatchLink(link, present, order[j + 1..])
  {
    assert order[j..][1..] == order[j + 1..];
  }

  /** The loop removing trailing empty lines. */
  method TrimEmptyLines(lines: seq<string>) returns (r: seq<string>)
    ensures r == TrimEmpty(lines)
  {
    r := lines;
    while |r| > 0 && IsEmptyLine(r[|r| - 1])
      invariant TrimEmpty(r) == TrimEmpty(lines)
    {
      r := r[..|r| - 1];
    }
  }

  /** The loop appending one doc-link line per link. */
  method AppendLinkLines(added: seq<string>) returns (r: seq<string>)
    ensures r == LinkLines(added)
  {
    r := AppendEach(added, NormalizedLinkLine);
    LinkLinesPointwise(added, r);
  }

  /** The loop appending `line(l)` for each `l` in turn. */
  method AppendEach(xs: seq<string>, line: string -> string) returns (r: seq<string>)
    ensures |r| == |xs|
    ensures forall i :: 0 <= i < |xs| ==> r[i] == line(xs[i])
  {
    r := [];
    var k := 0;
    while k < |xs|
      invariant 0 <= k <= |xs|
      invariant |r| == k
      invariant forall i :: 0 <= i < k ==> r[i] == line(xs[i])
    {
      r := r + [line(xs[k])];
      k := k + 1;
    }
  }

  lemma LinkLinesPointwise(links: seq<string>, r: seq<string>)
    requires |r| == |links|
    requires forall i :: 0 <= i < |r| ==> r[i] == NormalizedLinkLine(links[i])
    ensures r == LinkLines(links)
  {
  }

  /** What updateDocsLinksForNode does with a declaration. */
  datatype NodeUpdate = Untouched | Rewritten(doc: seq<string>) | ReceiverPanic

  /** The receiver type of a method as updateDocsLinksForNode reads it; `None` when the type assertion panics. */
  function ReceiverType(d: Decl): (r: Option<string>)
    requires d.FuncDecl?
    ensures r.None? <==>
              && d.recv.Some?
              && (|d.recv.value| == 0 || (d.recv.value[0].typ.Some? && d.recv.value[0].typ.value.Star? && !d.recv.value[0].typ.value.x.Ident?))
    ensures d.recv.None? ==> r == Some("")
  {
    if d.recv.None? then Some("")
    else if |d.recv.value| == 0 then None
    else
      var t := d.recv.value[0].typ;
      if t.Some? && t.value.Ident? then Some(t.value.name)
      else if t.Some? && t.value.Star? then (if t.value.x.Ident? then Some(t.value.x.name) else None)
      else Some("")
  }

  /**
    updateDocsLinksForNode: exported methods on exported receiver types get
    the doc comment rewritten with the links of `Receiver.Method`'s operations.
  */
  method UpdateDocsLinksForNode(meta: MetadataFile, d: Decl, order: seq<string>) returns (r: NodeUpdate)
    requires forall k :: 0 <= k < |meta.oldOps| ==> DocumentationURL(meta.oldOps[k]) in order
    ensures !d.FuncDecl? || !IsExported(d.name) ==> r == Untouched
    ensures d.FuncDecl? && IsExported(d.name) && ReceiverType(d).None? ==> r == ReceiverPanic
    ensures d.FuncDecl? && IsExported(d.name) && ReceiverType(d).Some? && !IsExported(ReceiverType(d).value) ==> r == Untouched
    ensures r.Rewritten? <==> d.FuncDecl? && IsExported(d.name) && ReceiverType(d).Some? && IsExported(ReceiverType(d).value)
    ensures r.Rewritten? ==>
      && d.FuncDecl? && ReceiverType(d).Some?
      && var links := LinksOf(ByIDs(meta.oldOps, IDsOf(meta.methodOperations, ReceiverType(d).value + "." + d.name)));
         (forall l :: l in links ==> l in order) && r.doc == UpdatedDoc(d.doc, links, order)
  {
    if !d.FuncDecl? || !IsExported(d.name) {
      return Untouched;
    }
    var receiverType := ReceiverType(d);
    if receiverType.None? {
      return ReceiverPanic;
    }
    if !IsExported(receiverType.value) {
      return Untouched;
    }
    var ops := meta.OperationsForMethod(receiverType.value + "." + d.name);
    LinksOfSameMembers(ops, ByIDs(meta.oldOps, IDsOf(meta.methodOperations, receiverType.value + "." + d.name)));
    LinksInOrder(ops, meta.oldOps, order);
    var doc, _ := UpdateDocComments(d.doc, LinksOf(ops), order);
    r := Rewritten(doc);
  }
}
