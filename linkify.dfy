/**
 * `linkify(text)`: the text is cut into plain-text and link segments by repeatedly asking for the
 * leftmost match, at or after the end of the previous one, of the case-insensitive pattern
 *
 *   \b(?:https?|ftp|file)://[-A-Z0-9+&@#/%?=~_|!:,.;]*[-A-Z0-9+&@#/%=~_|]
 *   | \bmailto:[A-Z0-9._%+-]+@[A-Z0-9.-]+\.[A-Z]{2,}
 *
 * The pattern is written out by hand as `MatchAt`, with the backtracking of each quantifier
 * resolved into the match that JavaScript's engine settles on.
 */
module Linkify {
  import opened Wrappers

  datatype LinkSegment = Text(content: string) | Link(href: string, content: string)

  // ----- Character classes (the `i` flag: ASCII letters of either case) -----

  predicate IsAsciiLetter(c: char) {
    'a' <= c <= 'z' || 'A' <= c <= 'Z'
  }

  predicate IsDigit(c: char) {
    '0' <= c <= '9'
  }

  /** The characters `\b` counts as word characters. */
  predicate IsWordChar(c: char) {
    IsAsciiLetter(c) || IsDigit(c) || c == '_'
  }

  /** `[-A-Z0-9+&@#\/%=~_|]`: the characters a scheme URL may end with. */
  predicate IsUrlEndChar(c: char) {
    IsAsciiLetter(c) || IsDigit(c) || c in "-+&@#/%=~_|"
  }

  /** `[-A-Z0-9+&@#\/%?=~_|!:,.;]`: the characters inside a scheme URL. */
  predicate IsUrlChar(c: char) {
    IsUrlEndChar(c) || c in "?!:,.;"
  }

  /** `[A-Z0-9._%+-]`: the characters of the part of a mail address before `@`. */
  predicate IsLocalPartChar(c: char) {
    IsAsciiLetter(c) || IsDigit(c) || c in "._%+-"
  }

  /** `[A-Z0-9.-]`: the characters of the domain of a mail address. */
  predicate IsDomainChar(c: char) {
    IsAsciiLetter(c) || IsDigit(c) || c in ".-"
  }

  datatype CharClass = UrlChars | LocalPartChars | DomainChars | Letters

  predicate InClass(k: CharClass, c: char) {
    match k
    case UrlChars => IsUrlChar(c)
    case LocalPartChars => IsLocalPartChar(c)
    case DomainChars => IsDomainChar(c)
    case Letters => IsAsciiLetter(c)
  }

  function Lower(c: char): char {
    if 'A' <= c <= 'Z' then (c as int + 32) as char else c
  }

  /** `text` holds the lower-case `word` at `p`, ignoring the case of ASCII letters. */
  predicate HasWordAt(text: string, p: nat, word: string) {
    p + |word| <= |text| && forall k :: 0 <= k < |word| ==> Lower(text[p + k]) == word[k]
  }

  /** `\b` before a word character at `p`: `p` is the start of the text or follows a non-word character. */
  predicate BoundaryBefore(text: string, p: nat)
    requires p <= |text|
  {
    p == 0 || !IsWordChar(text[p - 1])
  }

  // ----- The pieces of a match -----

  /** Where the run of characters of class `k` that starts at `i` ends: what a greedy `k*` consumes. */
  function RunEnd(text: string, i: nat, k: CharClass): (e: nat)
    requires i <= |text|
    ensures i <= e <= |text|
    ensures forall j :: i <= j < e ==> InClass(k, text[j])
    ensures e == |text| || !InClass(k, text[e])
    decreases |text| - i
  {
    if i < |text| && InClass(k, text[i]) then RunEnd(text, i + 1, k) else i
  }

  /** The last position in `[lo, hi)` holding a character a scheme URL may end with. */
  function LastUrlEnd(text: string, lo: nat, hi: nat): (r: Option<nat>)
    requires lo <= hi <= |text|
    ensures r.Some? ==> lo <= r.value < hi && IsUrlEndChar(text[r.value])
                        && (forall j :: r.value < j < hi ==> !IsUrlEndChar(text[j]))
    ensures r.None? ==> forall j :: lo <= j < hi ==> !IsUrlEndChar(text[j])
    decreases hi - lo
  {
    if hi == lo then None
    else if IsUrlEndChar(text[hi - 1]) then Some(hi - 1)
    else LastUrlEnd(text, lo, hi - 1)
  }

  /** At `k`, a dot followed by two letters: where `\.[A-Z]{2,}` can start. */
  predicate DotTld(text: string, k: nat) {
    k + 2 < |text| && text[k] == '.' && IsAsciiLetter(text[k + 1]) && IsAsciiLetter(text[k + 2])
  }

  /** The last position in `[lo, hi)` where `\.[A-Z]{2,}` can start. */
  function LastDotTld(text: string, lo: nat, hi: nat): (r: Option<nat>)
    requires hi <= |text|
    ensures r.Some? ==> lo <= r.value < hi && DotTld(text, r.value)
                        && (forall j :: r.value < j < hi ==> !DotTld(text, j))
    ensures r.None? ==> forall j :: lo <= j < hi ==> !DotTld(text, j)
    decreases hi
  {
    if hi <= lo then None
    else if DotTld(text, hi - 1) then Some(hi - 1)
    else LastDotTld(text, lo, hi - 1)
  }

  /** The length of the `scheme://` prefix at `p` (`https?` tries the `s` first), or 0. */
  function SchemeLength(text: string, p: nat): nat {
    if HasWordAt(text, p, "https://") then 8
    else if HasWordAt(text, p, "http://") then 7
    else if HasWordAt(text, p, "ftp://") then 6
    else if HasWordAt(text, p, "file://") then 7
    else 0
  }

  /**
   * The first alternative at `p`: after `scheme://`, the greedy `[...]*` takes the whole run of URL
   * characters and gives back characters until the run ends with one the URL may end with.
   */
  function SchemeUrlAt(text: string, p: nat): (len: Option<nat>)
    requires p <= |text|
    ensures len.Some? ==> p + len.value <= |text| && len.value > SchemeLength(text, p) > 0
  {
    var s := SchemeLength(text, p);
    if !BoundaryBefore(text, p) || s == 0 then None
    else
      match LastUrlEnd(text, p + s, RunEnd(text, p + s, UrlChars))
      case None => None
      case Some(j) => Some(j + 1 - p)
  }

  /**
   * The second alternative at `p`: `mailto:`, the whole run of local-part characters, `@`, then
   * the longest domain prefix that is followed by a dot and two letters, and all the letters after
   * that dot.
   */
  function MailtoAt(text: string, p: nat): (len: Option<nat>)
    requires p <= |text|
    ensures len.Some? ==> p + len.value <= |text| && len.value > 7
  {
    if !BoundaryBefore(text, p) || !HasWordAt(text, p, "mailto:") then None
    else
      var at := RunEnd(text, p + 7, LocalPartChars);
      if at == p + 7 || at == |text| || text[at] != '@' then None
      else
        match LastDotTld(text, at + 2, RunEnd(text, at + 1, DomainChars))
        case None => None
        case Some(k) => Some(RunEnd(text, k + 1, Letters) - p)
  }

  /** The length of the match of the whole pattern starting at `p`, the alternatives tried in order. */
  function MatchAt(text: string, p: nat): (len: Option<nat>)
    requires p <= |text|
    ensures len.Some? ==> 0 < len.value && p + len.value <= |text|
  {
    var url := SchemeUrlAt(text, p);
    if url.Some? then url else MailtoAt(text, p)
  }

  // ----- What a match looks like -----

  /** A scheme URL ends with a character it may end with, so never with `?`, `!`, `:`, `,`, `.` or `;`. */
  lemma SchemeUrlEnding(text: string, p: nat)
    requires p <= |text| && SchemeUrlAt(text, p).Some?
    ensures var last := text[p + SchemeUrlAt(text, p).value - 1];
      IsUrlEndChar(last) && last !in "?!:,.;"
  {
  }

  /** Every character of a scheme URL after `scheme://` is a URL character. */
  lemma SchemeUrlBody(text: string, p: nat)
    requires p <= |text| && SchemeUrlAt(text, p).Some?
    ensures forall j :: p + SchemeLength(text, p) <= j < p + SchemeUrlAt(text, p).value ==> IsUrlChar(text[j])
  {
  }

  /**
   * A mail link is `mailto:`, a non-empty local part, `@`, a domain holding a dot, and ends with
   * at least two letters after that dot.
   */
  lemma MailtoShape(text: string, p: nat) returns (at: nat, dot: nat)
    requires p <= |text| && MailtoAt(text, p).Some?
    ensures var e := p + MailtoAt(text, p).value;
      && HasWordAt(text, p, "mailto:")
      && p + 7 < at < e && text[at] == '@'
      && (forall j :: p + 7 <= j < at ==> IsLocalPartChar(text[j]))
      && at + 1 < dot && dot + 2 < e && DotTld(text, dot)
      && (forall j :: at < j < dot ==> IsDomainChar(text[j]))
      && (forall j :: dot < j < e ==> IsAsciiLetter(text[j]))
  {
    at := RunEnd(text, p + 7, LocalPartChars);
    var de := RunEnd(text, at + 1, DomainChars);
    dot := LastDotTld(text, at + 2, de).value;
    var e := RunEnd(text, dot + 1, Letters);
    assert e == p + MailtoAt(text, p).value;
    assert RunEnd(text, dot + 2, Letters) == e;
  }

  /** No match starts in the middle of a word: the character before it is not a word character. */
  lemma MatchAtBoundary(text: string, p: nat)
    requires 0 < p <= |text| && MatchAt(text, p).Some?
    ensures !IsWordChar(text[p - 1])
  {
  }

  // ----- The search -----

  /** For each position of a text, the length of the match starting there, if any. */
  type MatchTable = seq<Option<nat>>

  /** The matches of the pattern in `text`. */
  function PatternTable(text: string): MatchTable {
    seq(|text|, (p: int) requires 0 <= p < |text| => MatchAt(text, p))
  }

  /** `m` is a table for `text` whose every match is non-empty and ends inside the text. */
  ghost predicate Sound(text: string, m: MatchTable) {
    |m| == |text| && forall p :: 0 <= p < |m| && m[p].Some? ==> 0 < m[p].value && p + m[p].value <= |text|
  }

  lemma PatternSound(text: string)
    ensures Sound(text, PatternTable(text))
  {
    var t := PatternTable(text);
    forall p | 0 <= p < |t| && t[p].Some?
      ensures 0 < t[p].value && p + t[p].value <= |text|
    {
      assert t[p] == MatchAt(text, p);
    }
  }

  /** No match of `m` starts in `[lo, hi)`. */
  predicate NoMatchIn(m: MatchTable, lo: nat, hi: nat)
    requires hi <= |m|
  {
    forall p :: lo <= p < hi ==> m[p].None?
  }

  /** `urlRegex.exec(text)` with `lastIndex` at `from`: where the leftmost match at or after `from` starts. */
  function Exec(text: string, m: MatchTable, from: nat): (index: Option<nat>)
    requires from <= |text| == |m|
    ensures index.Some? ==> from <= index.value < |text| && m[index.value].Some?
                            && NoMatchIn(m, from, index.value)
    ensures index.None? ==> NoMatchIn(m, from, |text|)
    decreases |text| - from
  {
    if from == |text| then None
    else if m[from].Some? then Some(from)
    else Exec(text, m, from + 1)
  }

  // ----- Segments -----

  /** The concatenated `content` of `segs`. */
  function Concat(segs: seq<LinkSegment>): string
    decreases |segs|
  {
    if segs == [] then [] else segs[0].content + Concat(segs[1..])
  }

  /**
   * `segs` lays out `text` from position `at` to its end the way `linkify` does: each link is the
   * match at its position and links to its own text; each text segment is non-empty and no match
   * starts in it.
   */
  ghost predicate LaidOut(text: string, m: MatchTable, at: nat, segs: seq<LinkSegment>)
    decreases |segs|
  {
    if segs == [] then at == |text|
    else
      var s := segs[0];
      var end := at + |s.content|;
      && end <= |text| && text[at..end] == s.content
      && (s.Link? ==> s.href == s.content && at < |m| && m[at] == Some(|s.content|))
      && (s.Text? ==> s.content != [] && end <= |m| && NoMatchIn(m, at, end))
      && LaidOut(text, m, end, segs[1..])
  }

  /** No two text segments are next to each other. */
  predicate NoAdjacentText(segs: seq<LinkSegment>) {
    forall i :: 1 <= i < |segs| ==> !(segs[i - 1].Text? && segs[i].Text?)
  }

  /**
   * The segments the loop pushes from `lastIndex` on: the text up to the next match, the link to
   * the match, and what it pushes after that; or the rest of the text when no match is left.
   */
  function SegmentsFrom(text: string, m: MatchTable, lastIndex: nat): seq<LinkSegment>
    requires lastIndex <= |text| && Sound(text, m)
    decreases |text| - lastIndex
  {
    match Exec(text, m, lastIndex)
    case None => if lastIndex < |text| then [Text(text[lastIndex..])] else []
    case Some(i) =>
      var url := text[i..i + m[i].value];
      TextBefore(text, lastIndex, i) + ([Link(url, url)] + SegmentsFrom(text, m, i + m[i].value))
  }

  /** The text segment the loop pushes for `[lo, hi)`, if that is not empty. */
  function TextBefore(text: string, lo: nat, hi: nat): seq<LinkSegment>
    requires lo <= hi <= |text|
  {
    if lo < hi then [Text(text[lo..hi])] else []
  }

  /** What the loop returns: the segments from position 0, or the whole text as one segment. */
  function SegmentsOf(text: string, m: MatchTable): (segs: seq<LinkSegment>)
    requires Sound(text, m)
    ensures |segs| >= 1
    ensures text == [] ==> segs == [Text([])]
  {
    var segs := SegmentsFrom(text, m, 0);
    if |segs| > 0 then segs else [Text(text)]
  }

  /** A laid-out sequence of segments concatenates to the rest of the text. */
  lemma {:induction false} LaidOutConcat(text: string, m: MatchTable, at: nat, segs: seq<LinkSegment>)
    requires LaidOut(text, m, at, segs)
    ensures at <= |text| && Concat(segs) == text[at..]
    decreases |segs|
  {
    if segs != [] {
      var end := at + |segs[0].content|;
      LaidOutConcat(text, m, end, segs[1..]);
      assert text[at..end] + text[end..] == text[at..];
    }
  }

  /** Every link of a laid-out sequence of segments links to its own text. */
  lemma {:induction false} LaidOutLinks(text: string, m: MatchTable, at: nat, segs: seq<LinkSegment>)
    requires LaidOut(text, m, at, segs)
    ensures forall i :: 0 <= i < |segs| && segs[i].Link? ==> segs[i].href == segs[i].content
    decreases |segs|
  {
    if segs != [] {
      LaidOutLinks(text, m, at + |segs[0].content|, segs[1..]);
      assert forall i :: 1 <= i < |segs| ==> segs[i] == segs[1..][i - 1];
    }
  }

  /** Putting a segment in front of segments that keep text segments apart keeps them apart. */
  lemma ConsNoAdjacentText(s: LinkSegment, segs: seq<LinkSegment>)
    requires NoAdjacentText(segs) && (s.Text? && segs != [] ==> segs[0].Link?)
    ensures NoAdjacentText([s] + segs)
  {
    var r := [s] + segs;
    forall k | 1 <= k < |r| ensures !(r[k - 1].Text? && r[k].Text?) {
      if k > 1 {
        assert r[k - 1] == segs[k - 2] && r[k] == segs[k - 1];
      }
    }
  }

  /** A link to the match at `i` in front of segments laid out from its end is laid out from `i`. */
  lemma LinkLaidOut(text: string, m: MatchTable, i: nat, len: nat, rest: seq<LinkSegment>)
    requires i < |text| == |m| && i + len <= |text| && m[i] == Some(len) && LaidOut(text, m, i + len, rest)
    ensures LaidOut(text, m, i, [Link(text[i..i + len], text[i..i + len])] + rest)
  {
    var r := [Link(text[i..i + len], text[i..i + len])] + rest;
    assert r[1..] == rest;
  }

  /** Matchless text in front of segments laid out from its end is laid out from its start. */
  lemma TextLaidOut(text: string, m: MatchTable, lo: nat, hi: nat, rest: seq<LinkSegment>)
    requires lo < hi <= |text| == |m| && NoMatchIn(m, lo, hi) && LaidOut(text, m, hi, rest)
    ensures LaidOut(text, m, lo, [Text(text[lo..hi])] + rest)
  {
    var r := [Text(text[lo..hi])] + rest;
    assert r[1..] == rest;
  }

  /** With a match at `i` ahead of `lastIndex`, the segments are the text before it, the link, and the rest. */
  lemma SegmentsFromMatch(text: string, m: MatchTable, lastIndex: nat, i: nat, len: nat)
    requires lastIndex <= |text| && Sound(text, m) && Exec(text, m, lastIndex) == Some(i) && m[i] == Some(len)
    ensures i + len <= |text|
    ensures SegmentsFrom(text, m, lastIndex)
        == TextBefore(text, lastIndex, i) + ([Link(text[i..i + len], text[i..i + len])] + SegmentsFrom(text, m, i + len))
  {
  }

  /** Regrouping the segments pushed in one round of the loop. */
  lemma Regroup(done: seq<LinkSegment>, before: seq<LinkSegment>, link: LinkSegment, rest: seq<LinkSegment>, all: seq<LinkSegment>)
    requires done + (before + ([link] + rest)) == all
    ensures (done + before + [link]) + rest == all
  {
    assert (done + before + [link]) + rest == done + (before + ([link] + rest));
  }

  /** One round of the loop keeps what is pushed, followed by what is left to push, the same. */
  lemma LoopStep(text: string, m: MatchTable, done: seq<LinkSegment>, next: seq<LinkSegment>, lastIndex: nat, i: nat, len: nat)
    requires lastIndex <= |text| && Sound(text, m) && Exec(text, m, lastIndex) == Some(i) && m[i] == Some(len)
    requires i + len <= |text|
    requires done + SegmentsFrom(text, m, lastIndex) == SegmentsFrom(text, m, 0)
    requires next == done + TextBefore(text, lastIndex, i) + [Link(text[i..i + len], text[i..i + len])]
    ensures next + SegmentsFrom(text, m, i + len) == SegmentsFrom(text, m, 0)
  {
    SegmentsFromMatch(text, m, lastIndex, i, len);
    var url := text[i..i + len];
    Regroup(done, TextBefore(text, lastIndex, i), Link(url, url), SegmentsFrom(text, m, i + len), SegmentsFrom(text, m, 0));
  }

  /**
   * One round of the loop: the text before a match, the link to the match, and segments laid out
   * from the match's end are laid out from `lastIndex`, and keep text segments apart.
   */
  lemma StepLaidOut(text: string, m: MatchTable, lastIndex: nat, i: nat, len: nat, rest: seq<LinkSegment>,
                    segs: seq<LinkSegment>)
    requires lastIndex <= i < |text| == |m| && i + len <= |text| && m[i] == Some(len)
    requires NoMatchIn(m, lastIndex, i)
    requires LaidOut(text, m, i + len, rest) && NoAdjacentText(rest)
    requires segs == TextBefore(text, lastIndex, i) + ([Link(text[i..i + len], text[i..i + len])] + rest)
    ensures LaidOut(text, m, lastIndex, segs) && NoAdjacentText(segs) && segs != []
  {
    var url := text[i..i + len];
    var link := [Link(url, url)] + rest;
    LinkLaidOut(text, m, i, len, rest);
    ConsNoAdjacentText(Link(url, url), rest);
    if i > lastIndex {
      TextLaidOut(text, m, lastIndex, i, link);
      ConsNoAdjacentText(Text(text[lastIndex..i]), link);
    } else {
      assert TextBefore(text, lastIndex, i) + link == link;
    }
  }

  /**
   * The segments from `lastIndex` lay out the rest of the text, never put two text segments side
   * by side, and are empty only at the end of the text.
   */
  lemma {:induction false} SegmentsFromLaidOut(text: string, m: MatchTable, lastIndex: nat)
    requires lastIndex <= |text| && Sound(text, m)
    ensures var segs := SegmentsFrom(text, m, lastIndex);
      && LaidOut(text, m, lastIndex, segs)
      && NoAdjacentText(segs)
      && (segs == [] <==> lastIndex == |text|)
    decreases |text| - lastIndex
  {
    match Exec(text, m, lastIndex)
    case None =>
      TailLaidOut(text, m, lastIndex);
    case Some(i) =>
      var len := m[i].value;
      SegmentsFromLaidOut(text, m, i + len);
      MatchLaidOut(text, m, lastIndex, i, len);
  }

  /** With a match at `i` ahead, segments laid out from the match's end give segments laid out from `lastIndex`. */
  lemma MatchLaidOut(text: string, m: MatchTable, lastIndex: nat, i: nat, len: nat)
    requires lastIndex <= |text| && Sound(text, m) && Exec(text, m, lastIndex) == Some(i) && m[i] == Some(len)
    requires i + len <= |text|
    requires LaidOut(text, m, i + len, SegmentsFrom(text, m, i + len)) && NoAdjacentText(SegmentsFrom(text, m, i + len))
    ensures var segs := SegmentsFrom(text, m, lastIndex);
      && LaidOut(text, m, lastIndex, segs)
      && NoAdjacentText(segs)
      && (segs == [] <==> lastIndex == |text|)
  {
    var rest := SegmentsFrom(text, m, i + len);
    SegmentsFromMatch(text, m, lastIndex, i, len);
    StepLaidOut(text, m, lastIndex, i, len, rest, SegmentsFrom(text, m, lastIndex));
  }

  /** With no match left, the segments from `lastIndex` are the rest of the text, if any. */
  lemma TailLaidOut(text: string, m: MatchTable, lastIndex: nat)
    requires lastIndex <= |text| && Sound(text, m) && Exec(text, m, lastIndex).None?
    ensures var segs := SegmentsFrom(text, m, lastIndex);
      && LaidOut(text, m, lastIndex, segs)
      && NoAdjacentText(segs)
      && (segs == [] <==> lastIndex == |text|)
  {
    if lastIndex < |text| {
      assert text[lastIndex..|text|] == text[lastIndex..];
      TextLaidOut(text, m, lastIndex, |text|, []);
    }
  }

  /** What `linkify` promises, proved of the loop's result for any sound matcher. */
  lemma SegmentsOfLaidOut(text: string, m: MatchTable)
    requires Sound(text, m)
    ensures var segs := SegmentsOf(text, m);
      && Concat(segs) == text
      && |segs| >= 1
      && (text == [] ==> segs == [Text([])])
      && (text != [] ==> LaidOut(text, m, 0, segs))
      && NoAdjacentText(segs)
  {
    SegmentsFromLaidOut(text, m, 0);
    var segs := SegmentsFrom(text, m, 0);
    if text != [] {
      LaidOutConcat(text, m, 0, segs);
    } else {
      assert Concat([Text([])]) == [];
    }
  }

  /** One round of the loop: push the text before the match at `i`, if any, and the link to the match. */
  method PushMatch(text: string, segments: seq<LinkSegment>, lastIndex: nat, i: nat, len: nat)
    returns (next: seq<LinkSegment>)
    requires lastIndex <= i && i + len <= |text|
    ensures next == segments + TextBefore(text, lastIndex, i) + [Link(text[i..i + len], text[i..i + len])]
    ensures |next| > |segments| && next[..|segments|] == segments
  {
    var url := text[i..i + len];
    next := segments;
    if i > lastIndex {
      next := next + [Text(text[lastIndex..i])];
    }
    next := next + [Link(url, url)];
  }

  /**
   * The segmentation loop: find the leftmost match at or after `lastIndex`, push the text before
   * it and the link, and move `lastIndex` past the link; then push what is left, and fall back to
   * one text segment.
   */
  method Segment(text: string, m: MatchTable) returns (segments: seq<LinkSegment>)
    requires Sound(text, m)
    ensures segments == SegmentsOf(text, m)
  {
    segments := [];
    var lastIndex := 0;
    var index := Exec(text, m, lastIndex);
    while index.Some?
      invariant lastIndex <= |text|
      invariant index == Exec(text, m, lastIndex)
      invariant segments + SegmentsFrom(text, m, lastIndex) == SegmentsFrom(text, m, 0)
      decreases |text| - lastIndex
    {
      var i := index.value;
      var len := m[i].value;
      var next := PushMatch(text, segments, lastIndex, i, len);
      LoopStep(text, m, segments, next, lastIndex, i, len);
      segments := next;
      lastIndex := i + len;
      index := Exec(text, m, lastIndex);
    }
    if lastIndex < |text| {
      segments := segments + [Text(text[lastIndex..])];
    }
    if |segments| == 0 {
      segments := [Text(text)];
    }
  }

  /** `linkify(text)`: the loop run with the pattern; every link is a match of the pattern. */
  method Linkify(text: string) returns (segments: seq<LinkSegment>)
    ensures segments == SegmentsOf(text, PatternTable(text))
    ensures Concat(segments) == text
    ensures |segments| >= 1
    ensures text == [] ==> segments == [Text([])]
    ensures text != [] ==> LaidOut(text, PatternTable(text), 0, segments)
    ensures NoAdjacentText(segments)
    ensures forall i :: 0 <= i < |segments| && segments[i].Link? ==> segments[i].href == segments[i].content
  {
    PatternSound(text);
    segments := Segment(text, PatternTable(text));
    SegmentsOfLaidOut(text, PatternTable(text));
    if text != [] {
      LaidOutLinks(text, PatternTable(text), 0, segments);
    }
  }
}
