/** Sprite._read_object, Sprite.next_image and SpriteGroup: text-art frames and their layout. */
module Sprites {
  import opened Base
  import opened Colors
  import opened Pixels

  /** One parsed image: its pixels and the right and top edges it reports. */
  datatype Frame = Frame(pixels: seq<Pixel>, maxX: int, maxY: int)

  /** A character that draws a pixel: anything but a space or a newline. */
  predicate IsInk(c: char) { c != ' ' && c != '\n' }

  /** The number of newlines in s[..k]. */
  function Newlines(s: string, k: nat): nat
    requires k <= |s|
  {
    if k == 0 then 0 else Newlines(s, k - 1) + (if s[k - 1] == '\n' then 1 else 0)
  }

  /** The number of ink characters in s[..k]. */
  function InkCount(s: string, k: nat): nat
    requires k <= |s|
  {
    if k == 0 then 0 else InkCount(s, k - 1) + (if IsInk(s[k - 1]) then 1 else 0)
  }

  /** The column of character k: how many characters of its row come before it. */
  function Column(s: string, k: nat): nat
    requires k <= |s|
  {
    if k == 0 then 0 else if s[k - 1] == '\n' then 0 else Column(s, k - 1) + 1
  }

  /** The row of the first line: one less than the number of rows after it. */
  function TopRow(s: string): int { Newlines(s, |s|) - 2 }

  /** A sprite character's colour: KeyError when the map lacks it, otherwise its resolution. */
  function Lookup(colorMap: map<char, ColorSpec>, c: char): Result<Option<Rgb>> {
    if c in colorMap then Resolve(colorMap[c]) else Err(KeyError)
  }

  /** The parser's variables after reading s[..k]. */
  datatype ReadState = ReadState(pixels: seq<Pixel>, x: int, y: int, maxX: int)

  /** The parse of s[..k], or the exception its first badly coloured character raises. */
  function ReadUpTo(s: string, k: nat, colorMap: map<char, ColorSpec>, brightness: int): Result<ReadState>
    requires k <= |s|
  {
    if k == 0 then Ok(ReadState([], 0, TopRow(s), 0))
    else
      match ReadUpTo(s, k - 1, colorMap, brightness)
      case Err(e) => Err(e)
      case Ok(st) =>
        var c := s[k - 1];
        if c == '\n' then Ok(st.(x := 0, y := st.y - 1))
        else if c != ' ' then
          match Lookup(colorMap, c)
          case Err(e) => Err(e)
          case Ok(col) =>
            Ok(ReadState(st.pixels + [Pixel(st.x, st.y, col, brightness)], st.x + 1, st.y, Max(st.maxX, st.x + 1)))
        else Ok(st.(x := st.x + 1, maxX := Max(st.maxX, st.x + 1)))
  }

  /** The frame _read_object returns: its pixels, max_x and max_y (min_x and min_y are 0). */
  function FrameOf(s: string, colorMap: map<char, ColorSpec>, brightness: int): Result<Frame> {
    match ReadUpTo(s, |s|, colorMap, brightness)
    case Err(e) => Err(e)
    case Ok(st) => Ok(Frame(st.pixels, st.maxX, TopRow(s)))
  }

  /** The pixel that ink character k draws, given its resolved colour. */
  function InkPixel(s: string, k: nat, color: Option<Rgb>, brightness: int): Pixel
    requires k < |s|
  {
    Pixel(Column(s, k), TopRow(s) - Newlines(s, k), color, brightness)
  }

  /** Every ink character of s[..k] has a colour. */
  predicate InkResolves(s: string, k: nat, colorMap: map<char, ColorSpec>)
    requires k <= |s|
  {
    forall j :: 0 <= j < k && IsInk(s[j]) ==> Lookup(colorMap, s[j]).Ok?
  }

  /** The parser's meaning after s[..k]: (x, y) is the column and row of character k, there is
    * one pixel per ink character, at that character's column and row, max_x is the largest
    * column reached, i.e. the longest row so far; and the parse fails exactly when an ink
    * character has no colour, with the exception of the first one.
    */
  lemma {:induction false} ReadUpToMeaning(s: string, k: nat, colorMap: map<char, ColorSpec>, brightness: int)
    requires k <= |s|
    ensures ReadUpTo(s, k, colorMap, brightness).Ok? <==> InkResolves(s, k, colorMap)
    ensures ReadUpTo(s, k, colorMap, brightness).Err? ==>
      exists j :: (0 <= j < k && IsInk(s[j]) && Lookup(colorMap, s[j]).Err? && InkResolves(s, j, colorMap)
                   && ReadUpTo(s, k, colorMap, brightness).error == Lookup(colorMap, s[j]).error)
    ensures ReadUpTo(s, k, colorMap, brightness).Ok? ==> var st := ReadUpTo(s, k, colorMap, brightness).value;
      && st.x == Column(s, k) && st.y == TopRow(s) - Newlines(s, k)
      && |st.pixels| == InkCount(s, k)
      && (forall j :: 0 <= j < k && IsInk(s[j]) ==>
            InkCount(s, j) < |st.pixels| && st.pixels[InkCount(s, j)] == InkPixel(s, j, Lookup(colorMap, s[j]).value, brightness))
      && (forall j :: 0 <= j <= k ==> Column(s, j) <= st.maxX)
      && (exists j :: 0 <= j <= k && Column(s, j) == st.maxX)
  {
    if k > 0 {
      ReadUpToMeaning(s, k - 1, colorMap, brightness);
      var prev := ReadUpTo(s, k - 1, colorMap, brightness);
      var c := s[k - 1];
      if prev.Err? {
        var j :| 0 <= j < k - 1 && IsInk(s[j]) && Lookup(colorMap, s[j]).Err? && InkResolves(s, j, colorMap)
          && prev.error == Lookup(colorMap, s[j]).error;
      } else if IsInk(c) && Lookup(colorMap, c).Err? {
        assert InkResolves(s, k - 1, colorMap);
      } else {
        ReadStep(s, k, colorMap, brightness);
      }
    }
  }

  /**
    * The state st after s[..k], every ink character of which has a colour, is at character k's
    * place and holds one pixel per ink character.
    */
  ghost predicate ReadAs(s: string, k: nat, st: ReadState, colorMap: map<char, ColorSpec>, brightness: int)
    requires k <= |s|
  {
    && InkResolves(s, k, colorMap)
    && st.x == Column(s, k) && st.y == TopRow(s) - Newlines(s, k)
    && |st.pixels| == InkCount(s, k)
    && (forall j :: 0 <= j < k && IsInk(s[j]) ==>
          InkCount(s, j) < |st.pixels| && st.pixels[InkCount(s, j)] == InkPixel(s, j, Lookup(colorMap, s[j]).value, brightness))
    && (forall j :: 0 <= j <= k ==> Column(s, j) <= st.maxX)
    && (exists j :: 0 <= j <= k && Column(s, j) == st.maxX)
  }

  /** One successful step of the parser keeps its meaning. */
  lemma ReadStep(s: string, k: nat, colorMap: map<char, ColorSpec>, brightness: int)
    requires 0 < k <= |s| && ReadUpTo(s, k - 1, colorMap, brightness).Ok?
    requires ReadAs(s, k - 1, ReadUpTo(s, k - 1, colorMap, brightness).value, colorMap, brightness)
    requires !(IsInk(s[k - 1]) && Lookup(colorMap, s[k - 1]).Err?)
    ensures ReadUpTo(s, k, colorMap, brightness).Ok?
    ensures ReadAs(s, k, ReadUpTo(s, k, colorMap, brightness).value, colorMap, brightness)
  {
    var st := ReadUpTo(s, k - 1, colorMap, brightness).value;
    var c := s[k - 1];
    var now := ReadUpTo(s, k, colorMap, brightness).value;
    assert forall j :: 0 <= j < k - 1 && IsInk(s[j]) ==> now.pixels[InkCount(s, j)] == st.pixels[InkCount(s, j)];
    var j0 :| 0 <= j0 <= k - 1 && Column(s, j0) == st.maxX;
    if st.x + 1 > st.maxX && c != '\n' {
      assert Column(s, k) == now.maxX;
    } else {
      assert Column(s, j0) == now.maxX;
    }
  }

  /**
    * Sprite._read_object: walks the text, a newline resetting x to 0 and moving y down one,
    * every other character advancing x, every ink character adding a pixel coloured by the
    * map. max_y is the row of the first line, count('\n') - 2.
    */
  method ReadFrame(s: string, colorMap: map<char, ColorSpec>, brightness: int) returns (res: Result<Frame>)
    ensures res == FrameOf(s, colorMap, brightness)
  {
    var x := 0;
    var y := TopRow(s);
    var maxX := 0;
    var pixels: seq<Pixel> := [];
    var pos := 0;
    while pos < |s|
      invariant 0 <= pos <= |s|
      invariant ReadUpTo(s, pos, colorMap, brightness) == Ok(ReadState(pixels, x, y, maxX))
    {
      var c := s[pos];
      if c == '\n' {
        x := 0;
        y := y - 1;
      } else {
        if c != ' ' {
          var col := Lookup(colorMap, c);
          if col.Err? {
            ReadErrorStays(s, pos + 1, colorMap, brightness, col.error);
            return Err(col.error);
          }
          pixels := pixels + [Pixel(x, y, col.value, brightness)];
        }
        x := x + 1;
        if x > maxX {
          maxX := x;
        }
      }
      pos := pos + 1;
    }
    res := Ok(Frame(pixels, maxX, TopRow(s)));
  }

  /** Once the parse has failed, reading further characters keeps the same exception. */
  lemma {:induction false} ReadErrorStays(s: string, k: nat, colorMap: map<char, ColorSpec>, brightness: int, e: Error)
    requires k <= |s| && ReadUpTo(s, k, colorMap, brightness) == Err(e)
    ensures FrameOf(s, colorMap, brightness) == Err(e)
    decreases |s| - k
  {
    if k < |s| {
      ReadErrorStays(s, k + 1, colorMap, brightness, e);
    }
  }

  /** What _read_object promises of a text whose ink characters all have colours. */
  lemma FrameOfMeaning(s: string, colorMap: map<char, ColorSpec>, brightness: int)
    requires InkResolves(s, |s|, colorMap)
    ensures FrameOf(s, colorMap, brightness).Ok?
    ensures var f := FrameOf(s, colorMap, brightness).value;
      && |f.pixels| == InkCount(s, |s|)
      && f.maxY == TopRow(s)
      && (forall j :: 0 <= j < |s| && IsInk(s[j]) ==>
            InkCount(s, j) < |f.pixels| && f.pixels[InkCount(s, j)] == InkPixel(s, j, Lookup(colorMap, s[j]).value, brightness))
      && (forall j :: 0 <= j <= |s| ==> Column(s, j) <= f.maxX)
      && (exists j :: 0 <= j <= |s| && Column(s, j) == f.maxX)
  {
    ReadUpToMeaning(s, |s|, colorMap, brightness);
  }

  /** A text with an uncoloured ink character fails with the exception of the first such. */
  lemma FrameOfFails(s: string, colorMap: map<char, ColorSpec>, brightness: int)
    requires !InkResolves(s, |s|, colorMap)
    ensures FrameOf(s, colorMap, brightness).Err?
    ensures exists j :: (0 <= j < |s| && IsInk(s[j]) && Lookup(colorMap, s[j]).Err? && InkResolves(s, j, colorMap)
                         && FrameOf(s, colorMap, brightness).error == Lookup(colorMap, s[j]).error)
  {
    ReadUpToMeaning(s, |s|, colorMap, brightness);
  }

  /**
    * While reading, x and max_x stay non-negative and every pixel so far lies left of max_x:
    * a pixel is drawn at x and max_x is raised to at least x + 1 at once.
    */
  lemma {:induction false} ReadUpToFits(s: string, k: nat, colorMap: map<char, ColorSpec>, brightness: int)
    requires k <= |s|
    ensures ReadUpTo(s, k, colorMap, brightness).Ok? ==> var st := ReadUpTo(s, k, colorMap, brightness).value;
      && st.x >= 0 && st.maxX >= 0
      && forall i :: 0 <= i < |st.pixels| ==> 0 <= st.pixels[i].x < st.maxX
  {
    if k > 0 {
      ReadUpToFits(s, k - 1, colorMap, brightness);
    }
  }

  /** A frame read from text fits its box: its pixels lie in the columns 0 .. max_x - 1. */
  lemma FrameOfFits(s: string, colorMap: map<char, ColorSpec>, brightness: int)
    ensures FrameOf(s, colorMap, brightness).Ok? ==> Fits(FrameOf(s, colorMap, brightness).value)
    ensures FrameOf(s, colorMap, brightness).Ok? ==> var f := FrameOf(s, colorMap, brightness).value;
      forall i :: 0 <= i < |f.pixels| ==> f.pixels[i].x < f.maxX
  {
    ReadUpToFits(s, |s|, colorMap, brightness);
  }

  /** The frames of the sprite's texts read in order, stopping at the first exception. */
  function FramesUpTo(texts: seq<string>, n: nat, colorMap: map<char, ColorSpec>, brightness: int): Result<seq<Frame>>
    requires n <= |texts|
  {
    if n == 0 then Ok([])
    else
      match FramesUpTo(texts, n - 1, colorMap, brightness)
      case Err(e) => Err(e)
      case Ok(fs) =>
        match FrameOf(texts[n - 1], colorMap, brightness)
        case Err(e) => Err(e)
        case Ok(f) => Ok(fs + [f])
  }

  /** The Sprite constructor's frames: all texts read, then IndexError if there were none. */
  function SpriteFrames(texts: seq<string>, colorMap: map<char, ColorSpec>, brightness: int): (res: Result<seq<Frame>>)
    ensures res.Ok? ==> |res.value| == |texts| > 0
    ensures |texts| == 0 ==> res == Err(IndexError)
  {
    FramesUpToLength(texts, |texts|, colorMap, brightness);
    match FramesUpTo(texts, |texts|, colorMap, brightness)
    case Err(e) => Err(e)
    case Ok(fs) => if |fs| == 0 then Err(IndexError) else Ok(fs)
  }

  lemma {:induction false} FramesUpToLength(texts: seq<string>, n: nat, colorMap: map<char, ColorSpec>, brightness: int)
    requires n <= |texts|
    ensures FramesUpTo(texts, n, colorMap, brightness).Ok? ==>
      && |FramesUpTo(texts, n, colorMap, brightness).value| == n
      && forall i :: 0 <= i < n ==> FrameOf(texts[i], colorMap, brightness) == Ok(FramesUpTo(texts, n, colorMap, brightness).value[i])
  {
    if n > 0 {
      FramesUpToLength(texts, n - 1, colorMap, brightness);
    }
  }

  /**
    * The frames a sprite built from these texts holds: one per text, each the text's parse;
    * the first failing text decides the exception, and no texts at all is IndexError.
    */
  method ReadFrames(texts: seq<string>, colorMap: map<char, ColorSpec>, brightness: int) returns (res: Result<seq<Frame>>)
    ensures res == SpriteFrames(texts, colorMap, brightness)
  {
    var frames: seq<Frame> := [];
    var i := 0;
    while i < |texts|
      invariant 0 <= i <= |texts| && FramesUpTo(texts, i, colorMap, brightness) == Ok(frames)
    {
      var f := ReadFrame(texts[i], colorMap, brightness);
      if f.Err? {
        FramesErrorStays(texts, i + 1, colorMap, brightness, f.error);
        return Err(f.error);
      }
      frames := frames + [f.value];
      i := i + 1;
    }
    if |frames| == 0 {
      return Err(IndexError);
    }
    res := Ok(frames);
  }

  lemma {:induction false} FramesErrorStays(texts: seq<string>, n: nat, colorMap: map<char, ColorSpec>, brightness: int, e: Error)
    requires n <= |texts| && FramesUpTo(texts, n, colorMap, brightness) == Err(e)
    ensures SpriteFrames(texts, colorMap, brightness) == Err(e)
    decreases |texts| - n
  {
    if n < |texts| {
      FramesErrorStays(texts, n + 1, colorMap, brightness, e);
    }
  }

  /** Every frame of a sprite read from its texts fits its box. */
  lemma SpriteFramesFit(texts: seq<string>, colorMap: map<char, ColorSpec>, brightness: int)
    ensures SpriteFrames(texts, colorMap, brightness).Ok? ==>
      forall i :: 0 <= i < |SpriteFrames(texts, colorMap, brightness).value| ==>
        Fits(SpriteFrames(texts, colorMap, brightness).value[i])
  {
    FramesUpToLength(texts, |texts|, colorMap, brightness);
    forall i | 0 <= i < |texts| {
      FrameOfFits(texts[i], colorMap, brightness);
    }
  }

  /** next_image's index step: one on, wrapping to 0 when it reaches the frame count. */
  function NextIndex(i: int, n: int): (j: int)
    requires 0 < n && -1 <= i < n
    ensures 0 <= j < n
  {
    if i + 1 == n then 0 else i + 1
  }

  /** The index after k calls of next_image. */
  function Advance(i: int, n: int, k: nat): (j: int)
    requires 0 < n && -1 <= i < n
    ensures -1 <= j < n
  {
    if k == 0 then i else NextIndex(Advance(i, n, k - 1), n)
  }

  /** a calls and then b more are a + b calls. */
  lemma {:induction false} AdvanceAdd(i: int, n: int, a: nat, b: nat)
    requires 0 < n && -1 <= i < n
    ensures Advance(i, n, a + b) == Advance(Advance(i, n, a), n, b)
  {
    if b > 0 {
      AdvanceAdd(i, n, a, b - 1);
    }
  }

  /** Short of the last frame, each call moves one frame on. */
  lemma {:induction false} AdvanceCounts(i: int, n: int, k: nat)
    requires -1 <= i && i + k < n && 0 < n
    ensures Advance(i, n, k) == i + k
  {
    if k > 0 {
      AdvanceCounts(i, n, k - 1);
    }
  }

  /** n calls of next_image on a sprite of n frames come back to the same frame. */
  lemma CycleReturns(i: int, n: int)
    requires 0 <= i < n
    ensures Advance(i, n, n) == i
  {
    AdvanceCounts(i, n, n - 1 - i);
    AdvanceAdd(i, n, n - 1 - i, 1);
    AdvanceCounts(0, n, i);
    AdvanceAdd(i, n, n - i, i);
  }

  /** x_offset before member k: the widths max_x + 1 of the members before it. */
  function Offset(parts: seq<Frame>, k: nat): int
    requires k <= |parts|
  {
    if k == 0 then 0 else Offset(parts, k - 1) + parts[k - 1].maxX + 1
  }

  /** The group's max_y: the largest member max_y, and at least 0. */
  function TallestUpTo(parts: seq<Frame>, k: nat): int
    requires k <= |parts|
  {
    if k == 0 then 0 else Max(TallestUpTo(parts, k - 1), parts[k - 1].maxY)
  }

  /** The pixels of ps moved d to the right. */
  function Shifted(ps: seq<Pixel>, d: int): (qs: seq<Pixel>)
    ensures |qs| == |ps|
  {
    seq(|ps|, i requires 0 <= i < |ps| => ps[i].(x := ps[i].x + d))
  }

  /** The members' pixels, each member shifted by its offset, in member order. */
  function Laid(parts: seq<Frame>, k: nat): seq<Pixel>
    requires k <= |parts|
  {
    if k == 0 then [] else Laid(parts, k - 1) + Shifted(parts[k - 1].pixels, Offset(parts, k - 1))
  }

  /**
    * SpriteGroup: the members' pixels shifted right by x_offset, which grows by max_x + 1 per
    * member; the group's max_x is the final offset and its max_y the tallest member's.
    */
  method GroupPixels(parts: seq<Frame>) returns (ps: seq<Pixel>, maxX: int, maxY: int)
    ensures ps == Laid(parts, |parts|)
    ensures maxX == Offset(parts, |parts|) && maxY == TallestUpTo(parts, |parts|)
  {
    var offset := 0;
    maxY := 0;
    ps := [];
    var k := 0;
    while k < |parts|
      invariant 0 <= k <= |parts|
      invariant ps == Laid(parts, k) && offset == Offset(parts, k) && maxY == TallestUpTo(parts, k)
    {
      var part := parts[k];
      var j := 0;
      ghost var before := ps;
      while j < |part.pixels|
        invariant 0 <= j <= |part.pixels|
        invariant ps == before + Shifted(part.pixels[..j], offset)
      {
        var p := part.pixels[j];
        ps := ps + [p.(x := p.x + offset)];
        j := j + 1;
        assert Shifted(part.pixels[..j], offset) == Shifted(part.pixels[..j - 1], offset) + [p.(x := p.x + offset)];
      }
      assert part.pixels[..j] == part.pixels;
      offset := offset + part.maxX + 1;
      if part.maxY > maxY {
        maxY := part.maxY;
      }
      k := k + 1;
    }
    maxX := offset;
  }

  /** The frame's pixels lie in the columns 0 .. max_x, and max_x is at least -1. */
  predicate Fits(f: Frame) {
    f.maxX >= -1 && forall i :: 0 <= i < |f.pixels| ==> 0 <= f.pixels[i].x <= f.maxX
  }

  /** The sum of the member pixel counts. */
  function PixelTotal(parts: seq<Frame>, k: nat): nat
    requires k <= |parts|
  {
    if k == 0 then 0 else PixelTotal(parts, k - 1) + |parts[k - 1].pixels|
  }

  /** Member m's pixel i sits at PixelTotal(m) + i in the layout, shifted into member m's band. */
  predicate PlacedAt(parts: seq<Frame>, k: nat, m: nat, i: nat)
    requires m < k <= |parts| && i < |parts[m].pixels|
  {
    && PixelTotal(parts, m) + i < |Laid(parts, k)|
    && Laid(parts, k)[PixelTotal(parts, m) + i] == parts[m].pixels[i].(x := parts[m].pixels[i].x + Offset(parts, m))
    && Offset(parts, m) <= Laid(parts, k)[PixelTotal(parts, m) + i].x < Offset(parts, m + 1)
  }

  /** Offsets never decrease when every member's max_x is at least -1. */
  lemma {:induction false} OffsetGrows(parts: seq<Frame>, m: nat, k: nat)
    requires m <= k <= |parts|
    requires forall j :: 0 <= j < |parts| ==> Fits(parts[j])
    ensures Offset(parts, m) <= Offset(parts, k)
    decreases k - m
  {
    if m < k {
      OffsetGrows(parts, m, k - 1);
      assert Fits(parts[k - 1]);
    }
  }

  /**
    * The group keeps every member pixel, and when each member fits its own box the members
    * occupy disjoint column bands side by side: member m's pixels lie in
    * [Offset(m), Offset(m + 1) - 1], all within [0, max_x).
    */
  lemma {:induction false} LaidSideBySide(parts: seq<Frame>, k: nat)
    requires k <= |parts|
    requires forall m :: 0 <= m < |parts| ==> Fits(parts[m])
    ensures |Laid(parts, k)| == PixelTotal(parts, k)
    ensures forall m, i :: 0 <= m < k && 0 <= i < |parts[m].pixels| ==> PlacedAt(parts, k, m, i)
    ensures forall i :: 0 <= i < |Laid(parts, k)| ==> 0 <= Laid(parts, k)[i].x < Offset(parts, k)
  {
    if k > 0 {
      LaidSideBySide(parts, k - 1);
      OffsetGrows(parts, 0, k - 1);
      var prev := Laid(parts, k - 1);
      var last := Shifted(parts[k - 1].pixels, Offset(parts, k - 1));
      var now := Laid(parts, k);
      assert now == prev + last;
      assert Fits(parts[k - 1]);
      forall m, i | 0 <= m < k && 0 <= i < |parts[m].pixels| ensures PlacedAt(parts, k, m, i) {
        if m < k - 1 {
          assert PlacedAt(parts, k - 1, m, i);
          assert now[PixelTotal(parts, m) + i] == prev[PixelTotal(parts, m) + i];
        } else {
          assert now[PixelTotal(parts, m) + i] == last[i];
        }
      }
      forall i | 0 <= i < |now| ensures 0 <= now[i].x < Offset(parts, k) {
        if i < |prev| {
          assert now[i] == prev[i];
        } else {
          assert now[i] == last[i - |prev|];
        }
      }
    }
  }
}
