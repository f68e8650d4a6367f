/** The HTML shell: `index.html` cut at its first `<body>` tag into the text
    every response starts with (ending in the tag) and the text every response
    ends with (server/src/lib.rs, lines 67-71). */
module ShellTemplate {
  import opened Text

  /** The literal the template is split on, kept at the end of the prefix. */
  const Marker: string := "<body>"

  /** The pair computed once at startup and shared by every request. */
  datatype Shell = Shell(before: string, after: string)

  /** `s` ends with `suffix`. */
  predicate EndsWith(s: string, suffix: string) {
    |suffix| <= |s| && s[|s| - |suffix|..] == suffix
  }

  /** `split_once("<body>")` followed by pushing `"<body>"` back onto the
      owned prefix; `None` is the `unwrap` that aborts startup. */
  function SplitShell(t: string): (r: Option<Shell>)
    ensures r.None? <==> !Contains(t, Marker)
    ensures r.Some? ==> r.value.before + r.value.after == t
    ensures r.Some? ==> EndsWith(r.value.before, Marker)
  {
    match SplitOnce(t, Marker)
    case None => None
    case Some((b, a)) =>
      assert (b + Marker)[|b + Marker| - |Marker|..] == Marker;
      Some(Shell(b + Marker, a))
  }

  /** The split happens at the first marker: the prefix is the template up to
      and including it, the suffix is everything after it. Any index at which
      the marker occurs with no earlier occurrence determines the result. */
  lemma SplitAtFirstMarker(t: string, i: nat)
    requires OccursAt(t, Marker, i)
    requires forall j: nat :: j < i ==> !OccursAt(t, Marker, j)
    ensures SplitShell(t) == Some(Shell(t[..i + |Marker|], t[i + |Marker|..]))
    ensures |SplitShell(t).value.before| == i + |Marker|
  {
    assert Contains(t, Marker);
    var k := Find(t, Marker).value;
    assert k == i;
    assert t[..i] + Marker == t[..i + |Marker|];
  }

  /** With its trailing tag removed, the prefix holds no `<body>` at all. */
  lemma PrefixHasNoEarlierMarker(t: string)
    requires Contains(t, Marker)
    ensures var b := SplitShell(t).value.before;
      |Marker| <= |b| && !Contains(b[..|b| - |Marker|], Marker)
  {
    var i := Find(t, Marker).value;
    SplitAtFirstMarker(t, i);
    var b := SplitShell(t).value.before;
    assert b[..|b| - |Marker|] == t[..i];
    if Contains(t[..i], Marker) {
      var j: nat :| j <= i && OccursAt(t[..i], Marker, j);
      OccursInPrefix(t, Marker, i, j);
      assert false;
    }
  }

  /** The suffix is the rest of the template verbatim, so every later
      `<body>` in the template is still in it, at the shifted position. */
  lemma SuffixKeepsLaterMarkers(t: string, i: nat, k: nat)
    requires OccursAt(t, Marker, i)
    requires forall j: nat :: j < i ==> !OccursAt(t, Marker, j)
    ensures SplitShell(t).Some? && SplitShell(t).value.after == t[i + |Marker|..]
    ensures OccursAt(t[i + |Marker|..], Marker, k) <==> OccursAt(t, Marker, i + |Marker| + k)
  {
    OccursInSuffix(t, Marker, i + |Marker|, k);
    SplitAtFirstMarker(t, i);
  }

  /** The demo template `<html><head></head><body><main-slot/></body></html>`,
      written as the text before its `<body>`, the tag, and the text after.
      The pieces are parameters fixed by equalities rather than constants so
      that the proofs reason about a concatenation with known lengths instead
      of slicing one long string literal, which the solver finds costly. */
  predicate IsDemoTemplate(t: string, head: string, tail: string) {
    head == "<html><head></head>" && tail == "<main-slot/></body></html>" && t == head + Marker + tail
  }

  /** In the demo template `<body>` starts at index 19 ... */
  lemma DemoMarkerAt(t: string, head: string, tail: string)
    requires IsDemoTemplate(t, head, tail)
    ensures OccursAt(t, Marker, 19)
  {
    assert t[|head|..|head| + |Marker|] == Marker;
  }

  /** ... and nowhere before it. */
  lemma DemoNoEarlierMarker(t: string, head: string, tail: string)
    requires IsDemoTemplate(t, head, tail)
    ensures forall j: nat :: j < 19 ==> !OccursAt(t, Marker, j)
  {
    assert 'b' !in head;
    forall j: nat | j < 19 ensures !OccursAt(t, Marker, j) {
      if j + 1 < |head| {
        assert t[j + 1] == head[j + 1] != Marker[1];
      } else {
        assert t[j + 1] == Marker[0] != Marker[1];
      }
      MismatchNotOccurs(t, Marker, j, 1);
    }
  }

  /** The shell of the demo template: the prefix is everything through
      `<body>`, the suffix the rest. */
  lemma DemoTemplateSplit(t: string, head: string, tail: string)
    requires IsDemoTemplate(t, head, tail)
    ensures SplitShell(t) == Some(Shell(head + Marker, tail))
  {
    DemoMarkerAt(t, head, tail);
    DemoNoEarlierMarker(t, head, tail);
    SplitAtFirstMarker(t, 19);
    assert t[..19 + |Marker|] == head + Marker;
    assert t[19 + |Marker|..] == tail;
  }
}
