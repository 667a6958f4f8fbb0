/** Checking local Markdown fragments (scripts/validate_doc_fragments.py). */
module DocFragments {
  import opened Basics
  import opened Ordering
  import opened Keys

  datatype Fence = Fence(mark: char, length: nat)

  // `Skipped`: another site, no fragment, or not a Markdown file. `Own`: an empty path.
  datatype Target = Skipped | Own | File(path: string)

  datatype Link = Link(raw: string, target: Target, fragment: string)

  // One line as the four regular expressions read it; `slug` belongs to a heading.
  datatype Line = Line(fence: Option<Fence>, ids: seq<string>, slug: Option<string>, links: seq<Link>)

  // ----------------------------------------------------------------------------- fences

  // A closing fence has the opening mark and is at least as long. Unlike section 4.5 of
  // CommonMark 0.31.2, text may follow it.
  ghost predicate Closes(open: Fence, line: Line) {
    line.fence.Some? && line.fence.value.mark == open.mark && line.fence.value.length >= open.length
  }

  ghost function Visible(lines: seq<Line>, open: Option<Fence>): seq<Line> {
    if lines == [] then []
    else
      match open
      case None =>
        if lines[0].fence.Some? then Visible(lines[1..], lines[0].fence)
        else [lines[0]] + Visible(lines[1..], None)
      case Some(fence) => Visible(lines[1..], if Closes(fence, lines[0]) then None else open)
  }

  lemma {:induction false} InsideStaysHidden(fence: Fence, body: seq<Line>, rest: seq<Line>)
    requires forall line :: line in body ==> !Closes(fence, line)
    ensures Visible(body + rest, Some(fence)) == Visible(rest, Some(fence))
  {
    if body == [] {
      assert body + rest == rest;
    } else {
      assert (body + rest)[1..] == body[1..] + rest;
      InsideStaysHidden(fence, body[1..], rest);
    }
  }

  // A block from an opening fence to the first line that closes it is hidden; with no such
  // line everything after the opening fence is.
  lemma {:induction false} FencedBlockIsHidden(open: Line, body: seq<Line>, close: Line, rest: seq<Line>)
    requires open.fence.Some? && Closes(open.fence.value, close)
    requires forall line :: line in body ==> !Closes(open.fence.value, line)
    ensures Visible([open] + body + [close] + rest, None) == Visible(rest, None)
    ensures Visible([open] + body, None) == []
  {
    var fence := open.fence.value;
    assert ([open] + body + [close] + rest)[1..] == body + ([close] + rest);
    assert ([open] + body)[1..] == body + [];
    InsideStaysHidden(fence, body, [close] + rest);
    InsideStaysHidden(fence, body, []);
    assert ([close] + rest)[1..] == rest;
  }

  method VisibleLines(lines: seq<Line>) returns (visible: seq<Line>)
    ensures visible == Visible(lines, None)
  {
    visible := [];
    var fence: Option<Fence> := None;
    for i := 0 to |lines|
      invariant visible + Visible(lines[i..], fence) == Visible(lines, None)
    {
      var line := lines[i];
      assert lines[i..][1..] == lines[i + 1..];
      if line.fence.Some? {
        if fence.None? {
          fence := line.fence;
          continue;
        }
        if line.fence.value.mark == fence.value.mark && line.fence.value.length >= fence.value.length {
          fence := None;
          continue;
        }
      }
      if fence.None? {
        visible := visible + [line];
      }
    }
    assert lines[|lines|..] == [];
  }

  // ---------------------------------------------------------------------------- anchors

  ghost function Ids(lines: seq<Line>): seq<string> {
    if lines == [] then [] else Ids(lines[..|lines| - 1]) + lines[|lines| - 1].ids
  }

  // The slugs of the headings, leaving out the empty ones.
  ghost function Slugs(lines: seq<Line>): seq<string> {
    if lines == [] then []
    else
      var slug := lines[|lines| - 1].slug;
      Slugs(lines[..|lines| - 1]) + if slug.Some? && slug.value != "" then [slug.value] else []
  }

  ghost function Suffixed(slug: string, k: nat): string {
    if k == 0 then slug else Key(slug, k)
  }

  // A slug that occurs n times stands for itself and its suffixes -1 to -(n-1).
  ghost function HeadingAnchors(slugs: seq<string>): set<string> {
    set slug, k | slug in Elements(slugs) && 0 <= k < multiset(slugs)[slug] :: Suffixed(slug, k)
  }

  ghost function AnchorsOf(lines: seq<Line>): set<string> {
    Elements(Ids(Visible(lines, None))) + HeadingAnchors(Slugs(Visible(lines, None)))
  }

  lemma OneMoreHeading(slugs: seq<string>, slug: string)
    ensures HeadingAnchors(slugs + [slug]) == HeadingAnchors(slugs) + {Suffixed(slug, multiset(slugs)[slug])}
  {
    var more := slugs + [slug];
    assert multiset(more) == multiset(slugs) + multiset{slug};
    forall s, k | s in Elements(slugs) && 0 <= k < multiset(slugs)[s]
      ensures Suffixed(s, k) in HeadingAnchors(more)
    {
      assert s in Elements(more) && k < multiset(more)[s];
    }
    assert slug in Elements(more) && multiset(slugs)[slug] < multiset(more)[slug];
    assert Suffixed(slug, multiset(slugs)[slug]) in HeadingAnchors(more);
    forall s, k | s in Elements(more) && 0 <= k < multiset(more)[s]
      ensures Suffixed(s, k) in HeadingAnchors(slugs) + {Suffixed(slug, multiset(slugs)[slug])}
    {
      if k < multiset(slugs)[s] {
        assert s in multiset(slugs) && s in Elements(slugs);
      } else {
        assert s == slug && k == multiset(slugs)[slug];
      }
    }
  }

  lemma LastLine(visible: seq<Line>, i: nat)
    requires i < |visible|
    ensures Elements(Ids(visible[..i + 1])) == Elements(Ids(visible[..i])) + Elements(visible[i].ids)
    ensures var slug := visible[i].slug;
            Slugs(visible[..i + 1]) ==
            Slugs(visible[..i]) + if slug.Some? && slug.value != "" then [slug.value] else []
  {
    assert visible[..i + 1][..i] == visible[..i];
  }

  ghost predicate Counts(counts: map<string, nat>, slugs: seq<string>) {
    forall s :: multiset(slugs)[s] == if s in counts then counts[s] else 0
  }

  lemma CountOneMore(counts: map<string, nat>, slugs: seq<string>, slug: string)
    requires Counts(counts, slugs)
    ensures Counts(counts[slug := multiset(slugs)[slug] + 1], slugs + [slug])
  {
    assert multiset(slugs + [slug]) == multiset(slugs) + multiset{slug};
  }

  lemma UnionRegroups(all: set<string>, left: set<string>, right: set<string>, more: set<string>)
    requires all == left + right
    ensures all + more == left + more + right && all + more == left + (right + more)
  {
  }

  // One heading: its slug, or the slug with the number of earlier headings that share it.
  method AddHeading(anchors: set<string>, counts: map<string, nat>, slug: string, ghost slugs: seq<string>)
    returns (anchors': set<string>, counts': map<string, nat>)
    requires Counts(counts, slugs)
    ensures anchors' == anchors + {Suffixed(slug, multiset(slugs)[slug])}
    ensures Counts(counts', slugs + [slug])
  {
    var count := if slug in counts then counts[slug] else 0;
    assert count == multiset(slugs)[slug];
    CountOneMore(counts, slugs, slug);
    anchors' := anchors + {if count == 0 then slug else Key(slug, count)};
    counts' := counts[slug := count + 1];
  }

  method Anchors(lines: seq<Line>) returns (anchors: set<string>)
    ensures anchors == AnchorsOf(lines)
  {
    anchors := {};
    var counts: map<string, nat> := map[];
    var visible := VisibleLines(lines);
    ghost var ids: set<string>, slugs: seq<string>, heads: set<string> := {}, [], HeadingAnchors([]);
    for i := 0 to |visible|
      invariant ids == Elements(Ids(visible[..i])) && slugs == Slugs(visible[..i])
      invariant heads == HeadingAnchors(slugs) && anchors == ids + heads && Counts(counts, slugs)
    {
      var line := visible[i];
      LastLine(visible, i);
      UnionRegroups(anchors, ids, heads, Elements(line.ids));
      anchors := anchors + Elements(line.ids);
      ids := ids + Elements(line.ids);
      if line.slug.Some? && line.slug.value != "" {
        var slug := line.slug.value;
        ghost var added := {Suffixed(slug, multiset(slugs)[slug])};
        OneMoreHeading(slugs, slug);
        UnionRegroups(anchors, ids, heads, added);
        anchors, counts := AddHeading(anchors, counts, slug, slugs);
        heads, slugs := heads + added, slugs + [slug];
      }
    }
    assert visible[..|visible|] == visible;
  }

  // ------------------------------------------------------------------- the whole check

  // A tracked file: its name in the repository, where it resolves to, and whether its name
  // says Markdown.
  datatype Source = Source(name: string, path: string, markdown: bool)

  type Files = map<string, seq<Line>>

  ghost function TargetPath(files: Files, source: Source, link: Link): Option<string> {
    match link.target
    case Skipped => None
    case Own => if source.markdown then Some(source.path) else None
    case File(path) => if path in files then Some(path) else None
  }

  ghost predicate Broken(files: Files, source: Source, link: Link) {
    var target := TargetPath(files, source, link);
    target.Some? && target.value in files && link.fragment !in AnchorsOf(files[target.value])
  }

  ghost function Message(source: Source, link: Link): string {
    source.name + " -> " + link.raw
  }

  ghost function LinkErrors(files: Files, source: Source, links: seq<Link>): seq<string> {
    if links == [] then []
    else
      var last := links[|links| - 1];
      LinkErrors(files, source, links[..|links| - 1])
      + if Broken(files, source, last) then [Message(source, last)] else []
  }

  ghost function LineErrors(files: Files, source: Source, lines: seq<Line>): seq<string> {
    if lines == [] then []
    else LineErrors(files, source, lines[..|lines| - 1]) + LinkErrors(files, source, lines[|lines| - 1].links)
  }

  ghost function SourceErrors(files: Files, source: Source): seq<string> {
    if source.path in files then LineErrors(files, source, Visible(files[source.path], None)) else []
  }

  // The anchors of every target computed afresh for every link.
  ghost function ErrorsOf(files: Files, sources: seq<Source>): seq<string> {
    if sources == [] then []
    else ErrorsOf(files, sources[..|sources| - 1]) + SourceErrors(files, sources[|sources| - 1])
  }

  predicate NameLeq(a: Source, b: Source) {
    StringLeq(a.name, b.name)
  }

  ghost predicate CacheFits(files: Files, cache: map<string, set<string>>) {
    forall p :: p in cache ==> p in files && cache[p] == AnchorsOf(files[p])
  }

  method CheckLinks(files: Files, source: Source, links: seq<Link>, cache: map<string, set<string>>)
    returns (errors: seq<string>, cache': map<string, set<string>>)
    requires source.path in files && CacheFits(files, cache)
    ensures errors == LinkErrors(files, source, links) && CacheFits(files, cache')
  {
    errors, cache' := [], cache;
    for i := 0 to |links|
      invariant errors == LinkErrors(files, source, links[..i]) && CacheFits(files, cache')
    {
      var link := links[i];
      assert links[..i + 1][..i] == links[..i];
      if link.target.Skipped? || (link.target.Own? && !source.markdown)
         || (link.target.File? && link.target.path !in files)
      {
        continue;
      }
      var target := if link.target.Own? then source.path else link.target.path;
      if target !in cache' {
        var anchors := Anchors(files[target]);
        cache' := cache'[target := anchors];
      }
      if link.fragment !in cache'[target] {
        errors := errors + [source.name + " -> " + link.raw];
      }
    }
    assert links[..|links|] == links;
  }

  method CheckLines(files: Files, source: Source, lines: seq<Line>, cache: map<string, set<string>>)
    returns (errors: seq<string>, cache': map<string, set<string>>)
    requires source.path in files && CacheFits(files, cache)
    ensures errors == LineErrors(files, source, lines) && CacheFits(files, cache')
  {
    errors, cache' := [], cache;
    for i := 0 to |lines|
      invariant errors == LineErrors(files, source, lines[..i]) && CacheFits(files, cache')
    {
      assert lines[..i + 1][..i] == lines[..i];
      var found: seq<string>;
      found, cache' := CheckLinks(files, source, lines[i].links, cache');
      errors := errors + found;
    }
    assert lines[..|lines|] == lines;
  }

  // The cached check reports what computing every target's anchors anew would.
  method ValidateLocalFragments(files: Files, sources: seq<Source>) returns (report: seq<string>)
    ensures report == Sort(StringLeq, ErrorsOf(files, Sort(NameLeq, sources)))
    ensures InTextOrder(report)
    ensures multiset(report) == multiset(ErrorsOf(files, sources))
  {
    var errors: seq<string>, cache: map<string, set<string>> := [], map[];
    var ordered := Sort(NameLeq, sources);
    for i := 0 to |ordered|
      invariant errors == ErrorsOf(files, ordered[..i]) && CacheFits(files, cache)
    {
      assert ordered[..i + 1][..i] == ordered[..i];
      if ordered[i].path !in files {
        continue;
      }
      var visible := VisibleLines(files[ordered[i].path]);
      var found: seq<string>;
      found, cache := CheckLines(files, ordered[i], visible, cache);
      errors := errors + found;
    }
    assert ordered[..|ordered|] == ordered;
    StringOrderIsTotal();
    SortSorts(StringLeq, errors);
    SortPermutes(StringLeq, errors);
    SortedIsInTextOrder(Sort(StringLeq, errors));
    SortPermutes(NameLeq, sources);
    ErrorsFollowSources(files, ordered, sources);
    return Sort(StringLeq, errors);
  }

  lemma ErrorsAppend(files: Files, sources: seq<Source>, last: Source)
    ensures ErrorsOf(files, sources + [last]) == ErrorsOf(files, sources) + SourceErrors(files, last)
  {
    assert (sources + [last])[..|sources|] == sources;
  }

  // Leaving out one source leaves out its errors.
  lemma {:induction false} ErrorsWithout(files: Files, before: seq<Source>, source: Source, after: seq<Source>)
    ensures multiset(ErrorsOf(files, before + [source] + after)) ==
            multiset(ErrorsOf(files, before + after)) + multiset(SourceErrors(files, source))
    decreases |after|
  {
    if after == [] {
      assert before + [source] + after == before + [source] && before + after == before;
      ErrorsAppend(files, before, source);
    } else {
      var init, last := after[..|after| - 1], after[|after| - 1];
      assert after == init + [last];
      assert before + [source] + after == before + [source] + init + [last];
      assert before + after == before + init + [last];
      ErrorsAppend(files, before + [source] + init, last);
      ErrorsAppend(files, before + init, last);
      ErrorsWithout(files, before, source, init);
    }
  }

  lemma CancelOne<T>(m: multiset<T>, n: multiset<T>, x: T)
    requires m + multiset{x} == n + multiset{x}
    ensures m == n
  {
    assert m == m + multiset{x} - multiset{x};
    assert n == n + multiset{x} - multiset{x};
  }

  // Listing the same sources in another order finds the same errors.
  lemma {:induction false} ErrorsFollowSources(files: Files, a: seq<Source>, b: seq<Source>)
    requires multiset(a) == multiset(b)
    ensures multiset(ErrorsOf(files, a)) == multiset(ErrorsOf(files, b))
    decreases |a|
  {
    if a == [] {
      assert |b| == |multiset(b)| == |multiset(a)| == 0;
    } else {
      var init, last := a[..|a| - 1], a[|a| - 1];
      assert a == init + [last];
      assert last in multiset(b);
      var i :| 0 <= i < |b| && b[i] == last;
      var before, after := b[..i], b[i + 1..];
      assert b == before + [last] + after;
      CancelOne(multiset(init), multiset(before + after), last);
      ErrorsFollowSources(files, init, before + after);
      ErrorsAppend(files, init, last);
      ErrorsWithout(files, before, last, after);
    }
  }
}
