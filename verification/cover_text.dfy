/** The cover texture of hooks/useCoverTexture.ts. The text is cut into
    lines at '\n' and every line into words at ' '; each line is wrapped
    greedily to 450 pixels on a 512 by 512 canvas, the lines stacked about
    the canvas centre. What the hook paints is modelled as its `fillText`
    calls; `measureText` is a width oracle for the chosen font size. */
module CoverText {
  import opened Util

  /** One `fillText(text, 256, y)` call; every call is centred at x = 256. */
  datatype Draw = Draw(text: string, y: real)

  const MaxWidth: real := 450.0

  // ---- Splitting and joining ----

  /** `s.split(sep)`: the pieces between separators, in order; the empty
      string is one empty piece. */
  function Split(s: string, sep: char): (r: seq<string>)
    ensures |r| >= 1
    ensures forall k :: 0 <= k < |r| ==> sep !in r[k]
  {
    if s == [] then [""]
    else
      var rest := Split(s[1..], sep);
      if s[0] == sep then [""] + rest
      else [[s[0]] + rest[0]] + rest[1..]
  }

  /** `pieces.join(sep)`. */
  function Join(pieces: seq<string>, sep: char): string
  {
    if |pieces| == 0 then ""
    else if |pieces| == 1 then pieces[0]
    else pieces[0] + [sep] + Join(pieces[1..], sep)
  }

  /** The first word of a segment: everything before its first space. */
  function FirstWord(t: string): string
  {
    Split(t, ' ')[0]
  }

  /** Splitting and joining again gives back the string. */
  lemma {:induction false} SplitJoin(s: string, sep: char)
    ensures Join(Split(s, sep), sep) == s
  {
    if s != [] {
      var rest := Split(s[1..], sep);
      SplitJoin(s[1..], sep);
      var r := Split(s, sep);
      if s[0] == sep {
        assert r == [""] + rest && r[1..] == rest;
        assert s == [sep] + s[1..];
      } else {
        assert r[0] == [s[0]] + rest[0] && r[1..] == rest[1..];
        if |rest| > 1 {
          assert rest[0] + [sep] + Join(rest[1..], sep) == s[1..];
          assert s == [s[0]] + s[1..];
        } else {
          assert s == [s[0]] + s[1..];
        }
      }
    }
  }

  /** A string without the separator is a single piece. */
  lemma {:induction false} SplitWhole(a: string, sep: char)
    requires sep !in a
    ensures Split(a, sep) == [a]
  {
    if a != [] {
      SplitWhole(a[1..], sep);
      assert [a[0]] + a[1..] == a;
    }
  }

  /** A piece without the separator, then the separator, splits off first. */
  lemma {:induction false} SplitFront(a: string, b: string, sep: char)
    requires sep !in a
    ensures Split(a + [sep] + b, sep) == [a] + Split(b, sep)
  {
    if a == [] {
      assert a + [sep] + b == [sep] + b;
      assert ([sep] + b)[1..] == b;
    } else {
      SplitFront(a[1..], b, sep);
      assert (a + [sep] + b)[1..] == a[1..] + [sep] + b;
      assert [a[0]] + a[1..] == a;
    }
  }

  /** Joining pieces that hold no separator and splitting again gives the
      pieces back. */
  lemma {:induction false} JoinSplit(pieces: seq<string>, sep: char)
    requires |pieces| >= 1
    requires forall k :: 0 <= k < |pieces| ==> sep !in pieces[k]
    ensures Split(Join(pieces, sep), sep) == pieces
  {
    if |pieces| == 1 {
      SplitWhole(pieces[0], sep);
    } else {
      JoinSplit(pieces[1..], sep);
      SplitFront(pieces[0], Join(pieces[1..], sep), sep);
      assert [pieces[0]] + pieces[1..] == pieces;
    }
  }

  // ---- Word wrap ----

  /** `currentLine + (currentLine ? ' ' : '') + word`. */
  function Extend(current: string, word: string): string
  {
    if current == "" then word else current + " " + word
  }

  /** The segment of `t` up to its first space is `w`: `t` is `w` or
      begins with `w` and a space. */
  predicate StartsWith(t: string, w: string)
  {
    t == w || (|w| < |t| && t[..|w| + 1] == w + " ")
  }

  /** The wrap breaks before `word` when the candidate is wider than 450
      and the pending segment is non-empty. */
  predicate Breaks(current: string, word: string, width: string -> real)
  {
    width(Extend(current, word)) > MaxWidth && current != ""
  }

  /** The `forEach` over a line's words, from `words[0]` on, carrying the
      segment being built and its y. On a break the pending segment is
      drawn and the new one starts with the overflowing word, one `step`
      lower; otherwise the word joins the pending segment. */
  function Wrap(words: seq<string>, current: string, y: real, step: real, width: string -> real): (r: seq<Draw>)
    requires |words| >= 1
    ensures 1 <= |r| <= |words| + (if current == "" then 0 else 1)
    ensures forall k :: 0 <= k < |r| ==> r[k].y == y + k as real * step
    ensures forall k :: 0 <= k < |r| - 1 ==> r[k].text != ""
    ensures current != "" ==> StartsWith(r[0].text, current)
    decreases |words|, 1
  {
    if Breaks(current, words[0], width) then
      var rest := Pending(words, words[0], y + step, step, width);
      assert forall k :: 0 <= k < |rest| ==> rest[k].y == y + (k + 1) as real * step;
      [Draw(current, y)] + rest
    else
      var rest := Pending(words, Extend(current, words[0]), y, step, width);
      if current != "" then
        assert Extend(current, words[0]) == current + " " + words[0];
        LongerStart(rest[0].text, current, words[0]);
        rest
      else rest
  }

  /** The rest of the line after `words[0]` has been taken in, with `next`
      pending: the last word draws what is pending. */
  function Pending(words: seq<string>, next: string, y: real, step: real, width: string -> real): (r: seq<Draw>)
    requires |words| >= 1
    ensures 1 <= |r| <= |words|
    ensures forall k :: 0 <= k < |r| ==> r[k].y == y + k as real * step
    ensures forall k :: 0 <= k < |r| - 1 ==> r[k].text != ""
    ensures next != "" ==> StartsWith(r[0].text, next)
    decreases |words|, 0
  {
    if |words| == 1 then [Draw(next, y)] else Wrap(words[1..], next, y, step, width)
  }

  /** A segment that starts with `current word` starts with `current`. */
  lemma LongerStart(t: string, current: string, word: string)
    requires StartsWith(t, current + " " + word)
    ensures StartsWith(t, current)
  {
    var w := current + " " + word;
    if t == w {
      assert t[..|current| + 1] == current + " ";
    } else {
      assert t[..|current| + 1] == t[..|w| + 1][..|current| + 1];
    }
  }

  /** The texts of the draws, in order. */
  function Texts(ds: seq<Draw>): (r: seq<string>)
    ensures |r| == |ds| && forall k :: 0 <= k < |ds| ==> r[k] == ds[k].text
  {
    seq(|ds|, k requires 0 <= k < |ds| => ds[k].text)
  }

  /** For words that are not empty, the drawn segments joined by single
      spaces are the pending segment followed by the words: nothing is lost,
      repeated or reordered, and no word is cut. */
  lemma {:induction false} WrapJoin(words: seq<string>, current: string, y: real, step: real, width: string -> real)
    requires |words| >= 1
    requires forall k :: 0 <= k < |words| ==> words[k] != ""
    ensures Join(Texts(Wrap(words, current, y, step, width)), ' ') == Extend(current, Join(words, ' '))
    decreases |words|
  {
    var r := Wrap(words, current, y, step, width);
    var broke := Breaks(current, words[0], width);
    var next := if broke then words[0] else Extend(current, words[0]);
    var nextY := if broke then y + step else y;
    var rest := Pending(words, next, nextY, step, width);
    assert r == if broke then [Draw(current, y)] + rest else rest;
    assert next != "";
    if |words| == 1 {
      assert Join(Texts(rest), ' ') == next;
    } else {
      WrapJoin(words[1..], next, nextY, step, width);
      assert Join(Texts(rest), ' ') == next + " " + Join(words[1..], ' ');
      assert Join(words, ' ') == words[0] + " " + Join(words[1..], ' ');
    }
    if broke {
      assert Texts(r) == [current] + Texts(rest);
      assert Texts(r)[1..] == Texts(rest);
    }
  }

  /** Every drawn segment is a single word or fits the 450-pixel width:
      a segment only grows while the candidate fits. */
  lemma {:induction false} WrapFits(words: seq<string>, current: string, y: real, step: real, width: string -> real)
    requires |words| >= 1
    requires forall k :: 0 <= k < |words| ==> ' ' !in words[k]
    requires ' ' !in current || width(current) <= MaxWidth
    ensures var r := Wrap(words, current, y, step, width);
            forall k :: 0 <= k < |r| ==> ' ' !in r[k].text || width(r[k].text) <= MaxWidth
    decreases |words|
  {
    var r := Wrap(words, current, y, step, width);
    var broke := Breaks(current, words[0], width);
    var next := if broke then words[0] else Extend(current, words[0]);
    var nextY := if broke then y + step else y;
    var rest := Pending(words, next, nextY, step, width);
    assert r == if broke then [Draw(current, y)] + rest else rest;
    assert ' ' !in next || width(next) <= MaxWidth by {
      if !broke && current == "" {
        assert next == words[0];
      }
    }
    if |words| > 1 {
      WrapFits(words[1..], next, nextY, step, width);
      assert rest == Wrap(words[1..], next, nextY, step, width);
    }
    forall k | 0 <= k < |r|
      ensures ' ' !in r[k].text || width(r[k].text) <= MaxWidth
    {
      if broke && k > 0 {
        assert r[k] == rest[k - 1];
      }
    }
  }

  /** The wrap is greedy: every segment that is followed by another would
      have been wider than 450 pixels with the next segment's first word
      added. */
  lemma {:induction false} WrapGreedy(words: seq<string>, current: string, y: real, step: real, width: string -> real)
    requires |words| >= 1
    requires forall k :: 0 <= k < |words| ==> words[k] != "" && ' ' !in words[k]
    ensures var r := Wrap(words, current, y, step, width);
            forall k :: 0 <= k < |r| - 1 ==> width(r[k].text + " " + FirstWord(r[k + 1].text)) > MaxWidth
    decreases |words|
  {
    var r := Wrap(words, current, y, step, width);
    var broke := Breaks(current, words[0], width);
    var next := if broke then words[0] else Extend(current, words[0]);
    var nextY := if broke then y + step else y;
    var rest := Pending(words, next, nextY, step, width);
    assert r == if broke then [Draw(current, y)] + rest else rest;
    if |words| > 1 {
      WrapGreedy(words[1..], next, nextY, step, width);
      assert rest == Wrap(words[1..], next, nextY, step, width);
    }
    forall k | 0 <= k < |r| - 1
      ensures width(r[k].text + " " + FirstWord(r[k + 1].text)) > MaxWidth
    {
      if broke {
        if k == 0 {
          FirstWordOf(rest[0].text, words[0]);
          assert r[1] == rest[0];
        } else {
          assert r[k] == rest[k - 1] && r[k + 1] == rest[k];
        }
      }
    }
  }

  /** A segment that starts with a word has that word first. */
  lemma FirstWordOf(t: string, w: string)
    requires ' ' !in w && StartsWith(t, w)
    ensures FirstWord(t) == w
  {
    if t == w {
      SplitWhole(w, ' ');
    } else {
      assert t == w + " " + t[|w| + 1..] by {
        assert t == t[..|w| + 1] + t[|w| + 1..];
      }
      SplitFront(w, t[|w| + 1..], ' ');
    }
  }

  // ---- Layout ----

  /** `Math.min(48, Math.floor(400 / lines.length))`: the largest size
      whose lines fit 400 pixels, capped at 48. */
  function FontSize(lineCount: nat): (fs: int)
    requires lineCount >= 1
    ensures 0 <= fs <= 48
    ensures lineCount <= 8 ==> fs == 48
  {
    MinI(48, 400 / lineCount)
  }

  /** Below the cap the size is exactly the floor of 400 over the line count. */
  lemma FontSizeIsFloor(lineCount: nat)
    requires lineCount > 8
    ensures var fs := FontSize(lineCount);
            fs * lineCount <= 400 < (fs + 1) * lineCount
  {
    var q := 400 / lineCount;
    assert q * lineCount + 400 % lineCount == 400;
    assert q <= 48;
  }

  /** `startY + i * (fontSize + 10)` with `startY = 256 - (n - 1)(fontSize + 10) / 2`. */
  function LineY(i: int, lineCount: int, fontSize: int): real
  {
    256.0 - ((lineCount - 1) * (fontSize + 10)) as real / 2.0 + (i * (fontSize + 10)) as real
  }

  /** The lines are `fontSize + 10` apart and the block is centred on the
      canvas: line `i` and line `n - 1 - i` are mirror images about 256. */
  lemma LinesCentred(i: int, lineCount: int, fontSize: int)
    ensures LineY(i + 1, lineCount, fontSize) - LineY(i, lineCount, fontSize) == (fontSize + 10) as real
    ensures LineY(i, lineCount, fontSize) + LineY(lineCount - 1 - i, lineCount, fontSize) == 512.0
  {
    var g := fontSize + 10;
    assert (i + 1) * g == i * g + g;
    assert i * g + (lineCount - 1 - i) * g == (lineCount - 1) * g;
  }

  /** One line's draws: its words wrapped from line y, `fontSize + 5` apart. */
  function WrapLine(line: string, y: real, fontSize: int, width: string -> real): seq<Draw>
  {
    Wrap(Split(line, ' '), "", y, (fontSize + 5) as real, width)
  }

  /** The hook: no texture for missing or empty text; otherwise, per line,
      the draws of its wrapped segments. `measure(fontSize, s)` is the
      width `measureText` reports for `s` in the bold serif font of that size. */
  function CoverTexture(text: Option<string>, measure: (int, string) -> real): (r: Option<seq<seq<Draw>>>)
    ensures r.None? <==> text == None || text == Some("")
    ensures r.Some? ==> |r.value| == |Split(text.value, '\n')|
    ensures r.Some? ==> var n := |r.value|;
            forall i :: 0 <= i < n ==> |r.value[i]| >= 1 && r.value[i][0].y == LineY(i, n, FontSize(n))
  {
    if text == None || text == Some("") then None
    else
      var lines := Split(text.value, '\n');
      var fs := FontSize(|lines|);
      Some(seq(|lines|, i requires 0 <= i < |lines| => WrapLine(lines[i], LineY(i, |lines|, fs), fs, s => measure(fs, s))))
  }

  /** No line holds an empty word: no leading, trailing or doubled space. */
  predicate NoEmptyWords(line: string)
  {
    var words := Split(line, ' ');
    forall k :: 0 <= k < |words| ==> words[k] != ""
  }

  /** When no line has an empty word, joining each line's segments with
      spaces and the lines with newlines gives back the cover text. */
  lemma CoverRoundTrip(text: string, measure: (int, string) -> real)
    requires text != ""
    requires forall i :: 0 <= i < |Split(text, '\n')| ==> NoEmptyWords(Split(text, '\n')[i])
    ensures var blocks := CoverTexture(Some(text), measure).value;
            Join(seq(|blocks|, i requires 0 <= i < |blocks| => Join(Texts(blocks[i]), ' ')), '\n') == text
  {
    var blocks := CoverTexture(Some(text), measure).value;
    var lines := Split(text, '\n');
    var fs := FontSize(|lines|);
    var joined := seq(|blocks|, i requires 0 <= i < |blocks| => Join(Texts(blocks[i]), ' '));
    forall i | 0 <= i < |lines|
      ensures joined[i] == lines[i]
    {
      LineRoundTrip(lines[i], LineY(i, |lines|, fs), fs, s => measure(fs, s));
    }
    assert joined == lines;
    SplitJoin(text, '\n');
  }

  /** One line's segments, joined by spaces, give back the line. */
  lemma LineRoundTrip(line: string, y: real, fontSize: int, width: string -> real)
    requires NoEmptyWords(line)
    ensures Join(Texts(WrapLine(line, y, fontSize, width)), ' ') == line
  {
    WrapJoin(Split(line, ' '), "", y, (fontSize + 5) as real, width);
    SplitJoin(line, ' ');
  }
}
