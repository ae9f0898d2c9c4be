// The subtitle provider of the older library build. It does not serve
// samples: every subtitle packet read becomes a timed text cue on the
// subtitle track. Packets read again after a seek are recognised by their
// byte position and dropped; the text is cleaned of markup (HTML-like tags
// for SubRip, SRT, plain text and WebVTT; override blocks and the leading
// dialogue fields for ASS and SSA); and to avoid flicker a cue that starts
// only after every active cue has ended is held back until a cue exits.
//
// The track is outside the model: its active cues are a parameter, and the
// cues added to it are recorded in order.

module SubtitleCues {
  import opened Common

  datatype SubtitleCodec = Subrip | Srt | PlainText | WebVtt | Ass | Ssa | OtherSubtitle

  /** A subtitle packet: its text (decoded from UTF-8), timestamp, duration and byte position in the file. */
  datatype SubtitlePacket = SubtitlePacket(text: string, pts: int, duration: int, pos: int)

  /** A timed text cue: start time and duration in 100 ns units, and its one line of text. */
  datatype Cue = Cue(startTime: int, duration: int, text: string)

  // ---------------------------------------------------------------------
  // Markup

  /** std::string of a C string: the text up to its first NUL. */
  function UpToNul(s: string): (r: string)
    ensures |r| <= |s| && r == s[..|r|]
    ensures '\0' !in r
    ensures |r| < |s| ==> s[|r|] == '\0'
  {
    if s == [] || s[0] == '\0' then [] else [s[0]] + UpToNul(s[1..])
  }

  /** find: the first index at or after `from` holding `c`. */
  function Find(s: string, c: char, from: nat): (r: Option<nat>)
    ensures r.Some? ==> from <= r.value < |s| && s[r.value] == c
    ensures r.Some? ==> forall i :: from <= i < r.value ==> s[i] != c
    ensures r.None? ==> forall i :: from <= i < |s| ==> s[i] != c
    decreases |s| - from
  {
    if from >= |s| then None
    else if s[from] == c then Some(from)
    else Find(s, c, from + 1)
  }

  /**
   * The stripping loop: the first `open` and the first `close` after it are
   * removed together with everything between them, until no `open` is left;
   * an `open` with no `close` after it cuts the text there.
   */
  function Strip(s: string, open: char, close: char): (r: string)
    requires open != close
    decreases |s|
  {
    match Find(s, open, 0)
      case None => s
      case Some(p) =>
        match Find(s, close, p)
          case None => s[..p]
          case Some(q) => Strip(s[..p] + s[q + 1..], open, close)
  }

  /** After stripping, no `open` is left, and the text is no longer than before. */
  lemma {:induction false} StripLeavesNoOpen(s: string, open: char, close: char)
    requires open != close
    ensures open !in Strip(s, open, close)
    ensures |Strip(s, open, close)| <= |s|
    decreases |s|
  {
    var f := Find(s, open, 0);
    if f.None? {
      StripDone(s, open, close);
    } else {
      var p := f.value;
      var g := Find(s, close, p);
      if g.None? {
        StripCutStep(s, p, open, close);
        assert forall i :: 0 <= i < p ==> s[..p][i] == s[i];
      } else {
        StripSpanStep(s, p, g.value, open, close);
        StripLeavesNoOpen(s[..p] + s[g.value + 1..], open, close);
      }
    }
  }

  /** Stripping keeps text without an `open` as it is. */
  lemma StripPlainText(s: string, open: char, close: char)
    requires open != close && open !in s
    ensures Strip(s, open, close) == s
  {
    assert forall i :: 0 <= i < |s| ==> s[i] != open;
  }

  /**
   * A text without `open`, then a span from `open` to `close`: the span is
   * removed and the rest is stripped in turn.
   */
  lemma StripSpan(a: string, t: string, b: string, open: char, close: char)
    requires open != close && open !in a && close !in t
    ensures Strip(a + [open] + t + [close] + b, open, close) == a + Strip(b, open, close)
  {
    var s := a + [open] + t + [close] + b;
    var p, q := |a|, |a| + 1 + |t|;
    FindIs(s, open, 0, p);
    FindIs(s, close, p, q);
    assert s[..p] + s[q + 1..] == a + b;
    StripPrefix(a, b, open, close);
  }

  /** An `open` with no `close` after it cuts the text before it. */
  lemma StripUnclosed(a: string, t: string, open: char, close: char)
    requires open != close && open !in a && close !in t
    ensures Strip(a + [open] + t, open, close) == a
  {
    var s := a + [open] + t;
    FindIs(s, open, 0, |a|);
    assert forall i :: |a| < i < |s| ==> s[i] == t[i - |a| - 1];
    assert s[..|a|] == a;
  }

  /** Stripping a text behind a prefix without `open` strips only the text. */
  lemma {:induction false} StripPrefix(a: string, b: string, open: char, close: char)
    requires open != close && open !in a
    ensures Strip(a + b, open, close) == a + Strip(b, open, close)
    decreases |b|
  {
    FindSkipsPrefix(a, b, open, 0);
    FindAfterPrefix(a, b, open, 0);
    var fb := Find(b, open, 0);
    if fb.Some? {
      var p := fb.value;
      FindAfterPrefix(a, b, close, p);
      var gb := Find(b, close, p);
      if gb.None? {
        StripCut(a, b, p, open, close);
      } else {
        var q := gb.value;
        StripPrefix(a, b[..p] + b[q + 1..], open, close);
        StripSpanStep(b, p, q, open, close);
        StripRemoved(a, b, p, q, open, close);
      }
    }
  }

  /** One unclosed `open` in the text behind the prefix. */
  lemma StripCut(a: string, b: string, p: nat, open: char, close: char)
    requires open != close && p < |b|
    requires Find(b, open, 0) == Some(p) && Find(b, close, p).None?
    requires Find(a + b, open, 0) == Some(|a| + p) && Find(a + b, close, |a| + p).None?
    ensures Strip(a + b, open, close) == a + Strip(b, open, close)
  {
    assert (a + b)[..|a| + p] == a + b[..p];
  }

  /** One span removed from the text behind the prefix. */
  lemma StripRemoved(a: string, b: string, p: nat, q: nat, open: char, close: char)
    requires open != close && p < q < |b|
    requires Find(a + b, open, 0) == Some(|a| + p) && Find(a + b, close, |a| + p) == Some(|a| + q)
    ensures Strip(a + b, open, close) == Strip(a + (b[..p] + b[q + 1..]), open, close)
  {
    var s := a + b;
    StripSpanStep(s, |a| + p, |a| + q, open, close);
    RemoveBehindPrefix(a, b, p, q);
  }

  /** The stripping loop ends when no `open` is left. */
  lemma StripDone(s: string, open: char, close: char)
    requires open != close && Find(s, open, 0).None?
    ensures Strip(s, open, close) == s
  {
  }

  /** The stripping loop ends at an `open` with no `close` after it. */
  lemma StripCutStep(s: string, p: nat, open: char, close: char)
    requires open != close && p < |s|
    requires Find(s, open, 0) == Some(p) && Find(s, close, p).None?
    ensures Strip(s, open, close) == s[..p]
  {
  }

  /** One turn of the stripping loop. */
  lemma StripSpanStep(s: string, p: nat, q: nat, open: char, close: char)
    requires open != close && p < q < |s|
    requires Find(s, open, 0) == Some(p) && Find(s, close, p) == Some(q)
    ensures Strip(s, open, close) == Strip(s[..p] + s[q + 1..], open, close)
  {
  }

  lemma RemoveBehindPrefix(a: string, b: string, p: nat, q: nat)
    requires p < q < |b|
    ensures (a + b)[..|a| + p] + (a + b)[|a| + q + 1..] == a + (b[..p] + b[q + 1..])
  {
    assert (a + b)[..|a| + p] == a + b[..p];
    assert (a + b)[|a| + q + 1..] == b[q + 1..];
  }

  /** A search that starts inside a prefix without `c` finds what a search from the prefix's end finds. */
  lemma {:induction false} FindSkipsPrefix(a: string, b: string, c: char, from: nat)
    requires c !in a && from <= |a|
    ensures Find(a + b, c, from) == Find(a + b, c, |a|)
    decreases |a| - from
  {
    if from < |a| {
      assert (a + b)[from] == a[from];
      FindSkipsPrefix(a, b, c, from + 1);
    }
  }

  /** Behind a prefix, Find finds in the whole what it finds in the rest, shifted by the prefix's length. */
  lemma {:induction false} FindAfterPrefix(a: string, b: string, c: char, from: nat)
    ensures Find(a + b, c, |a| + from) == if Find(b, c, from).Some? then Some(|a| + Find(b, c, from).value) else None
    decreases |b| - from
  {
    if from < |b| {
      assert (a + b)[|a| + from] == b[from];
      FindAfterPrefix(a, b, c, from + 1);
    }
  }

  /** A `c` at `k`, and none from `from` up to it: Find finds `k`. */
  lemma {:induction false} FindIs(s: string, c: char, from: nat, k: nat)
    requires from <= k < |s| && s[k] == c
    requires forall i :: from <= i < k ==> s[i] != c
    ensures Find(s, c, from) == Some(k)
    decreases k - from
  {
    if from < k {
      FindIs(s, c, from + 1, k);
    }
  }

  /** find_last_of: the last index holding `c`. */
  function FindLast(s: string, c: char): (r: Option<nat>)
    ensures r.Some? ==> r.value < |s| && s[r.value] == c && c !in s[r.value + 1..]
    ensures r.None? ==> c !in s
  {
    if s == [] then None
    else if s[|s| - 1] == c then Some(|s| - 1)
    else
      var r := FindLast(s[..|s| - 1], c);
      assert s == s[..|s| - 1] + [s[|s| - 1]];
      r
  }

  /**
   * The dialogue text of an ASS/SSA event is its last comma-separated
   * field: the text after the last comma, when that comma is neither the
   * first nor the last character; otherwise there is no text.
   */
  function LastField(s: string): (r: Option<string>)
    ensures r.Some? ==> r.value != [] && ',' !in r.value
  {
    match FindLast(s, ',')
      case Some(c) => if 0 < c < |s| - 1 then Some(s[c + 1..]) else None
      case None => None
  }

  /** The field after the last comma, when something precedes the comma and something follows it. */
  lemma LastFieldOf(a: string, t: string)
    requires a != [] && t != [] && ',' !in t
    ensures LastField(a + [','] + t) == Some(t)
    ensures LastField(t) == None
  {
    var s := a + [','] + t;
    assert s[|a|] == ',';
    var c := FindLast(s, ',').value;
    assert forall i :: |a| < i < |s| ==> s[i] == t[i - |a| - 1];
    assert c == |a|;
    assert s[|a| + 1..] == t;
  }

  /**
   * The text of the cue a packet makes, if any. An empty text converts to a
   * null String^, which makes no cue.
   */
  function CueText(codec: SubtitleCodec, text: string): (r: Option<string>)
    ensures r.Some? ==> r.value != []
    ensures codec in {Subrip, Srt, PlainText, WebVtt} ==>
      var t := Strip(UpToNul(text), '<', '>');
      (r.Some? <==> t != []) && (r.Some? ==> r.value == t)
    ensures codec in {Ass, Ssa} ==> r == LastField(Strip(UpToNul(text), '{', '}'))
    ensures codec == OtherSubtitle ==> r == None
  {
    if codec in {Subrip, Srt, PlainText, WebVtt} then
      var t := Strip(UpToNul(text), '<', '>');
      if t == [] then None else Some(t)
    else if codec in {Ass, Ssa} then LastField(Strip(UpToNul(text), '{', '}'))
    else None
  }

  /**
   * Cleaned text is never empty and never keeps an opening tag or override
   * bracket, and ASS/SSA text never keeps a comma.
   */
  lemma CueTextIsClean(codec: SubtitleCodec, text: string)
    ensures CueText(codec, text).Some? ==> CueText(codec, text).value != []
    ensures CueText(codec, text).Some? && codec in {Subrip, Srt, PlainText, WebVtt} ==> '<' !in CueText(codec, text).value
    ensures CueText(codec, text).Some? && codec in {Ass, Ssa} ==>
      '{' !in CueText(codec, text).value && ',' !in CueText(codec, text).value
  {
    StripLeavesNoOpen(UpToNul(text), '<', '>');
    var s := Strip(UpToNul(text), '{', '}');
    StripLeavesNoOpen(UpToNul(text), '{', '}');
    if codec in {Ass, Ssa} && LastField(s).Some? {
      var c := FindLast(s, ',').value;
      assert LastField(s).value == s[c + 1..];
    }
  }

  /**
   * A SubRip, SRT, plain-text or WebVTT packet whose text strips to nothing
   * makes no cue: an empty text, a text of tags only, or a text that opens
   * a tag it never closes.
   */
  lemma EmptyTextMakesNoCue(codec: SubtitleCodec, t: string)
    requires codec in {Subrip, Srt, PlainText, WebVtt} && '>' !in t
    ensures CueText(codec, []) == None
    ensures CueText(codec, "<i></i>") == None
    ensures CueText(codec, "<" + t) == None
  {
    StripTagsOnly();
    StripOpenedTag(t);
  }

  /** A text of tags only strips to nothing. */
  lemma StripTagsOnly()
    ensures Strip(UpToNul("<i></i>"), '<', '>') == []
  {
    var tags := "<i></i>";
    UpToNulWithoutNul(tags);
    assert tags == [] + ['<'] + "i" + ['>'] + "</i>";
    StripSpan([], "i", "</i>", '<', '>');
    StripClosingTag();
  }

  /** A lone closing tag strips to nothing. */
  lemma StripClosingTag()
    ensures Strip("</i>", '<', '>') == []
  {
    assert "</i>" == [] + ['<'] + "/i" + ['>'] + [];
    StripSpan([], "/i", [], '<', '>');
  }

  /** A text that opens a tag at once and never closes it strips to nothing. */
  lemma StripOpenedTag(t: string)
    requires '>' !in t
    ensures Strip(UpToNul("<" + t), '<', '>') == []
  {
    var u := UpToNul(t);
    assert ("<" + t)[1..] == t;
    assert UpToNul("<" + t) == [] + ['<'] + u;
    assert '>' !in u by {
      assert u == t[..|u|];
    }
    StripUnclosed([], u, '<', '>');
  }

  /** A text without NUL is kept whole. */
  lemma UpToNulWithoutNul(s: string)
    requires '\0' !in s
    ensures UpToNul(s) == s
  {
  }

  // ---------------------------------------------------------------------
  // Cues

  /** The provider's state: the deduplication record, the held-back cues and the cues on the track. */
  datatype CueState = CueState(maxCuePosition: int, addedCues: set<int>, pendingCues: seq<Cue>, track: seq<Cue>)

  /** Where a new cue goes: held back exactly when cues are active and every one of them ends by its start. */
  predicate HoldBack(cue: Cue, active: seq<Cue>)
  {
    |active| > 0 && forall i :: 0 <= i < |active| ==> active[i].startTime + active[i].duration <= cue.startTime
  }

  /** AddCue. */
  function CueAdded(st: CueState, cue: Cue, active: seq<Cue>): (st': CueState)
    ensures st'.maxCuePosition == st.maxCuePosition && st'.addedCues == st.addedCues
    ensures multiset(st'.pendingCues + st'.track) == multiset(st.pendingCues + st.track) + multiset{cue}
  {
    if HoldBack(cue, active) then st.(pendingCues := st.pendingCues + [cue])
    else st.(track := st.track + [cue])
  }

  /** OnCueExited: the held-back cues go onto the track in order, and none is held back any more. */
  function CuesExited(st: CueState): (st': CueState)
    ensures st'.pendingCues == [] && multiset(st'.track) == multiset(st.pendingCues + st.track)
  {
    st.(pendingCues := [], track := st.track + st.pendingCues)
  }

  /** A position in 100 ns units: ticks of the time base times 10^7, truncated. */
  function TicksToHns(tb: TimeBase, ticks: int): int
    requires tb.den > 0
  {
    TruncDiv(tb.num * HNS_PER_SEC * ticks, tb.den)
  }

  /** Whether QueuePacket drops a packet as one already turned into a cue. */
  predicate Duplicate(st: CueState, pos: int)
  {
    pos <= st.maxCuePosition && pos in st.addedCues
  }

  /**
   * QueuePacket: a duplicate is dropped; otherwise its position is recorded
   * (raising the maximum if it is beyond it) and, when its text gives one,
   * a cue timed from its timestamp less the start offset is added.
   */
  function PacketQueued(st: CueState, codec: SubtitleCodec, tb: TimeBase, startOffset: int,
                        p: SubtitlePacket, active: seq<Cue>): (st': CueState)
    requires tb.den > 0
    ensures Duplicate(st, p.pos) ==> st' == st
    ensures !Duplicate(st, p.pos) ==>
      && st'.addedCues == st.addedCues + {p.pos}
      && st'.maxCuePosition == (if p.pos > st.maxCuePosition then p.pos else st.maxCuePosition)
  {
    if Duplicate(st, p.pos) then st
    else
      var recorded := st.(maxCuePosition := if p.pos > st.maxCuePosition then p.pos else st.maxCuePosition,
                          addedCues := st.addedCues + {p.pos});
      match CueText(codec, p.text)
        case None => recorded
        case Some(text) =>
          CueAdded(recorded, Cue(TicksToHns(tb, p.pts) - startOffset, TicksToHns(tb, p.duration), text), active)
  }

  /** A packet read a second time (after a seek) is dropped and changes nothing. */
  lemma PacketReadTwiceIsDropped(st: CueState, codec: SubtitleCodec, tb: TimeBase, startOffset: int,
                                 p: SubtitlePacket, q: SubtitlePacket, active: seq<Cue>, active': seq<Cue>)
    requires tb.den > 0 && q.pos == p.pos
    ensures var st' := PacketQueued(st, codec, tb, startOffset, p, active);
      PacketQueued(st', codec, tb, startOffset, q, active') == st'
  {
  }

  /**
   * Every packet not dropped yields at most one cue, on the track or held
   * back; a packet whose text gives one yields exactly that cue.
   */
  lemma EachPacketOneCue(st: CueState, codec: SubtitleCodec, tb: TimeBase, startOffset: int, p: SubtitlePacket, active: seq<Cue>)
    requires tb.den > 0 && !Duplicate(st, p.pos)
    ensures var st' := PacketQueued(st, codec, tb, startOffset, p, active);
      CueText(codec, p.text).Some? ==>
        multiset(st'.pendingCues + st'.track) == multiset(st.pendingCues + st.track) +
          multiset{Cue(TicksToHns(tb, p.pts) - startOffset, TicksToHns(tb, p.duration), CueText(codec, p.text).value)}
    ensures var st' := PacketQueued(st, codec, tb, startOffset, p, active);
      CueText(codec, p.text).None? ==> st'.pendingCues == st.pendingCues && st'.track == st.track
  {
  }

  /**
   * Positions are compared with the largest seen, and -1 (position unknown)
   * is recorded like any other: once one packet of unknown position has
   * made a cue, every later one is dropped as a duplicate.
   */
  lemma UnknownPositionOnlyOnce(st: CueState, codec: SubtitleCodec, tb: TimeBase, startOffset: int,
                                p: SubtitlePacket, q: SubtitlePacket, active: seq<Cue>)
    requires tb.den > 0 && p.pos == -1 && q.pos == -1 && st.maxCuePosition >= -1
    ensures var st' := PacketQueued(st, codec, tb, startOffset, p, active);
      Duplicate(st', q.pos)
  {
  }

  /** A cue held back is on the track after the next cue exits, after those held back before it. */
  lemma HeldBackCueAddedOnExit(st: CueState, cue: Cue, active: seq<Cue>)
    requires HoldBack(cue, active)
    ensures CuesExited(CueAdded(st, cue, active)).track == st.track + st.pendingCues + [cue]
    ensures CuesExited(CueAdded(st, cue, active)).pendingCues == []
  {
  }

  class SubtitlesProvider {
    const codec: SubtitleCodec
    const timeBase: TimeBase
    const startOffset: int

    var maxCuePosition: int
    /** addedCues, a map from each position to itself, as the set of its keys. */
    var addedCues: set<int>
    var pendingCues: seq<Cue>
    /** The cues added to the subtitle track, in order. */
    var track: seq<Cue>

    function State(): CueState
      reads this
    {
      CueState(maxCuePosition, addedCues, pendingCues, track)
    }

    /** A new provider has seen no packet: the maximum position starts at 0 (zeroed memory). */
    constructor (codec: SubtitleCodec, timeBase: TimeBase, startOffset: int)
      requires timeBase.den > 0
      ensures this.codec == codec && this.timeBase == timeBase && this.startOffset == startOffset
      ensures State() == CueState(0, {}, [], [])
    {
      this.codec := codec;
      this.timeBase := timeBase;
      this.startOffset := startOffset;
      maxCuePosition := 0;
      addedCues := {};
      pendingCues := [];
      track := [];
    }

    /** The stripping loop of QueuePacket on one string. */
    static method StripEffects(text: string, open: char, close: char) returns (str: string)
      requires open != close
      ensures str == Strip(text, open, close)
    {
      str := text;
      while true
        invariant Strip(str, open, close) == Strip(text, open, close)
        decreases |str|
      {
        var done;
        str, done := StripTurn(str, open, close);
        if done {
          break;
        }
      }
    }

    /** One turn of the stripping loop: the string after it, and whether the loop ends. */
    static method StripTurn(str: string, open: char, close: char) returns (next: string, done: bool)
      requires open != close
      ensures Strip(next, open, close) == Strip(str, open, close)
      ensures done ==> next == Strip(str, open, close)
      ensures !done ==> |next| < |str|
    {
      var nextEffect := Find(str, open, 0);
      if nextEffect.None? {
        StripDone(str, open, close);
        return str, true;
      }
      var endEffect := Find(str, close, nextEffect.value);
      if endEffect.None? {
        StripCutStep(str, nextEffect.value, open, close);
        next := str[..nextEffect.value];
        StripLeavesNoOpen(str, open, close);
        StripPlainText(next, open, close);
        return next, true;
      }
      StripSpanStep(str, nextEffect.value, endEffect.value, open, close);
      if endEffect.value < |str| - 1 {
        next := str[..nextEffect.value] + str[endEffect.value + 1..];
      } else {
        assert str[..nextEffect.value] + str[endEffect.value + 1..] == str[..nextEffect.value];
        next := str[..nextEffect.value];
      }
      done := false;
    }

    /** The text cleanup of QueuePacket. */
    static method CleanText(codec: SubtitleCodec, text: string) returns (timedText: Option<string>)
      ensures timedText == CueText(codec, text)
    {
      timedText := None;
      if codec == Subrip || codec == Srt || codec == PlainText || codec == WebVtt {
        var str := StripEffects(UpToNul(text), '<', '>');
        if str != [] {
          timedText := Some(str);
        }
      } else if codec == Ass || codec == Ssa {
        var str := StripEffects(UpToNul(text), '{', '}');
        var lastComma := FindLast(str, ',');
        if lastComma.Some? && 0 < lastComma.value < |str| - 1 {
          timedText := Some(str[lastComma.value + 1..]);
        }
      }
    }

    method AddCue(cue: Cue, active: seq<Cue>)
      modifies this
      ensures State() == CueAdded(old(State()), cue, active)
    {
      if |active| > 0 {
        var addToPending := true;
        var i := 0;
        while i < |active|
          invariant 0 <= i <= |active|
          invariant addToPending <==> forall j :: 0 <= j < i ==> active[j].startTime + active[j].duration <= cue.startTime
        {
          if active[i].startTime + active[i].duration > cue.startTime {
            addToPending := false;
            break;
          }
          i := i + 1;
        }
        if addToPending {
          pendingCues := pendingCues + [cue];
        } else {
          track := track + [cue];
        }
      } else {
        track := track + [cue];
      }
    }

    method OnCueExited()
      modifies this
      ensures State() == CuesExited(old(State()))
    {
      var i := 0;
      while i < |pendingCues|
        invariant 0 <= i <= |pendingCues| && pendingCues == old(pendingCues)
        invariant track == old(track) + pendingCues[..i]
        invariant maxCuePosition == old(maxCuePosition) && addedCues == old(addedCues)
      {
        track := track + [pendingCues[i]];
        i := i + 1;
      }
      assert pendingCues[..i] == pendingCues;
      pendingCues := [];
    }

    method QueuePacket(packet: SubtitlePacket, active: seq<Cue>)
      requires timeBase.den > 0
      modifies this
      ensures State() == PacketQueued(old(State()), codec, timeBase, startOffset, packet, active)
    {
      if packet.pos > maxCuePosition {
        maxCuePosition := packet.pos;
      } else if packet.pos in addedCues {
        return;
      }
      addedCues := addedCues + {packet.pos};
      var position := TicksToHns(timeBase, packet.pts) - startOffset;
      var duration := TicksToHns(timeBase, packet.duration);
      var timedText := CleanText(codec, packet.text);
      if timedText.Some? {
        AddCue(Cue(position, duration, timedText.value), active);
      }
    }
  }
}
