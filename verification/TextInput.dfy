/** The text field: offsets into its content in UTF-8 bytes and in UTF-16 code units, selection and editing. */
module TextInputs {
  // A `char` is a Unicode scalar value.

  import opened Options

  /** A range of byte offsets, or of UTF-16 offsets where said so; `end` may lie before `start`. */
  datatype Span = Span(start: nat, end: nat)

  // ---------- Encoded lengths ----------

  /** Bytes of a character in UTF-8, section 3 of RFC 3629. */
  function Utf8(c: char): (n: nat)
    ensures 1 <= n <= 4
  {
    var code := c as int;
    if code < 0x80 then 1 else if code < 0x800 then 2 else if code < 0x1_0000 then 3 else 4
  }

  /** Code units of a character in UTF-16, section 2 of RFC 2781. */
  function Utf16(c: char): (n: nat)
    ensures 1 <= n <= 2
  {
    if c as int < 0x1_0000 then 1 else 2
  }

  ghost function PowerOf2(n: nat): nat {
    if n == 0 then 1 else 2 * PowerOf2(n - 1)
  }

  /** How many code points have room in a sequence of `n` bytes: 7 bits in a single one; otherwise `7 - n` in the
      first and 6 in each of the others. */
  ghost function Room8(n: nat): nat
    requires 1 <= n <= 4
  {
    PowerOf2(if n == 1 then 7 else 7 - n + 6 * (n - 1))
  }

  /** A character takes as few bytes as have room for its code point. */
  lemma Utf8IsShortest(c: char)
    ensures c as int < Room8(Utf8(c))
    ensures forall n :: 1 <= n < Utf8(c) ==> Room8(n) <= c as int
  {
    Powers();
  }

  /** One code unit of 16 bits if that has room; otherwise two that share the 20 bits of what is beyond. */
  lemma Utf16IsShortest(c: char)
    ensures Utf16(c) == 1 <==> c as int < PowerOf2(16)
    ensures Utf16(c) == 2 ==> 0 <= c as int - PowerOf2(16) < PowerOf2(20)
  {
    Powers();
  }

  lemma Powers()
    ensures PowerOf2(7) == 0x80 && PowerOf2(11) == 0x800 && PowerOf2(16) == 0x1_0000
    ensures PowerOf2(20) == 0x10_0000 && PowerOf2(21) == 0x20_0000
  {
    assert PowerOf2(3) == 8;
    assert PowerOf2(7) == 16 * PowerOf2(3);
    assert PowerOf2(11) == 16 * PowerOf2(7);
    assert PowerOf2(16) == 32 * PowerOf2(11);
    assert PowerOf2(20) == 16 * PowerOf2(16);
  }

  function Len8(s: string): nat {
    if s == [] then 0 else Utf8(s[0]) + Len8(s[1..])
  }

  function Len16(s: string): nat {
    if s == [] then 0 else Utf16(s[0]) + Len16(s[1..])
  }

  /** Whether a byte offset lies between two characters, or at an end. */
  predicate Boundary(s: string, offset: int) {
    offset == 0 || (s != [] && 0 < offset && Boundary(s[1..], offset - Utf8(s[0])))
  }

  /** The same for offsets in UTF-16 code units. */
  predicate Boundary16(s: string, offset: int) {
    offset == 0 || (s != [] && 0 < offset && Boundary16(s[1..], offset - Utf16(s[0])))
  }

  // ---------- The offset maps ----------

  function FromUtf16(s: string, target: int): nat {
    if target <= 0 || s == [] then 0 else Utf8(s[0]) + FromUtf16(s[1..], target - Utf16(s[0]))
  }

  function ToUtf16(s: string, target: int): nat {
    if target <= 0 || s == [] then 0 else Utf16(s[0]) + ToUtf16(s[1..], target - Utf8(s[0]))
  }

  /** From a byte offset between characters to UTF-16 and back is the identity. */
  lemma {:induction false} RoundTrip(s: string, offset: nat)
    requires Boundary(s, offset)
    ensures FromUtf16(s, ToUtf16(s, offset)) == offset
    ensures Boundary16(s, ToUtf16(s, offset))
    decreases |s|
  {
    if offset != 0 {
      BoundaryFits(s[1..], offset - Utf8(s[0]));
      RoundTrip(s[1..], offset - Utf8(s[0]));
    }
  }

  lemma BoundaryFits(s: string, offset: int)
    requires Boundary(s, offset)
    ensures 0 <= offset
  {
  }

  lemma Boundary16Fits(s: string, offset: int)
    requires Boundary16(s, offset)
    ensures 0 <= offset
  {
  }

  /** And from UTF-16 to bytes and back. */
  lemma {:induction false} RoundTripFromUtf16(s: string, offset: nat)
    requires Boundary16(s, offset)
    ensures ToUtf16(s, FromUtf16(s, offset)) == offset
    decreases |s|
  {
    if offset != 0 {
      Boundary16Fits(s[1..], offset - Utf16(s[0]));
      RoundTripFromUtf16(s[1..], offset - Utf16(s[0]));
    }
  }

  lemma {:induction false} FromUtf16Monotone(s: string, a: int, b: int)
    requires a <= b
    ensures FromUtf16(s, a) <= FromUtf16(s, b)
    decreases |s|
  {
    if a > 0 && s != [] {
      FromUtf16Monotone(s[1..], a - Utf16(s[0]), b - Utf16(s[0]));
    }
  }

  lemma {:induction false} ToUtf16Monotone(s: string, a: int, b: int)
    requires a <= b
    ensures ToUtf16(s, a) <= ToUtf16(s, b)
    decreases |s|
  {
    if a > 0 && s != [] {
      ToUtf16Monotone(s[1..], a - Utf8(s[0]), b - Utf8(s[0]));
    }
  }

  /** An offset from UTF-16 lies between characters, at or past the target unless the text ends before it. */
  lemma {:induction false} FromUtf16Reaches(s: string, target: int)
    ensures Boundary(s, FromUtf16(s, target)) && FromUtf16(s, target) <= Len8(s)
    ensures target <= ToUtf16(s, FromUtf16(s, target)) || FromUtf16(s, target) == Len8(s)
    decreases |s|
  {
    if target > 0 && s != [] {
      FromUtf16Reaches(s[1..], target - Utf16(s[0]));
    }
  }

  /** And it is the least such offset. */
  lemma {:induction false} FromUtf16Least(s: string, target: int, offset: nat)
    requires Boundary(s, offset) && target <= ToUtf16(s, offset)
    ensures FromUtf16(s, target) <= offset
    decreases |s|
  {
    if target > 0 {
      BoundaryFits(s[1..], offset - Utf8(s[0]));
      FromUtf16Least(s[1..], target - Utf16(s[0]), offset - Utf8(s[0]));
    }
  }

  // ---------- Cutting text at an offset ----------

  /** How many characters lie before a byte offset. */
  function CharsBefore(s: string, offset: int): (count: nat)
    ensures count <= |s|
  {
    if offset <= 0 || s == [] then 0 else 1 + CharsBefore(s[1..], offset - Utf8(s[0]))
  }

  function Before(s: string, offset: int): string {
    s[..CharsBefore(s, offset)]
  }

  function After(s: string, offset: int): string {
    s[CharsBefore(s, offset)..]
  }

  /** The text of a range that is in order. */
  function Slice(s: string, span: Span): string
    requires span.start <= span.end
  {
    CharsMonotone(s, span.start, span.end);
    s[CharsBefore(s, span.start)..CharsBefore(s, span.end)]
  }

  /** The text with a range replaced. */
  function Spliced(s: string, span: Span, text: string): string {
    Before(s, span.start) + text + After(s, span.end)
  }

  lemma {:induction false} CharsMonotone(s: string, a: int, b: int)
    requires a <= b
    ensures CharsBefore(s, a) <= CharsBefore(s, b)
    decreases |s|
  {
    if a > 0 && s != [] {
      CharsMonotone(s[1..], a - Utf8(s[0]), b - Utf8(s[0]));
    }
  }

  lemma {:induction false} BeforeLength(s: string, offset: int)
    requires Boundary(s, offset)
    ensures Len8(Before(s, offset)) == offset && Len16(Before(s, offset)) == ToUtf16(s, offset)
    decreases |s|
  {
    if offset != 0 {
      BeforeLength(s[1..], offset - Utf8(s[0]));
      assert Before(s, offset) == [s[0]] + Before(s[1..], offset - Utf8(s[0]));
      assert Before(s, offset)[1..] == Before(s[1..], offset - Utf8(s[0]));
    }
  }

  lemma {:induction false} Concat8(a: string, b: string)
    ensures Len8(a + b) == Len8(a) + Len8(b) && Len16(a + b) == Len16(a) + Len16(b)
    decreases |a|
  {
    if a == [] {
      assert a + b == b;
    } else {
      Concat8(a[1..], b);
      assert (a + b)[1..] == a[1..] + b;
    }
  }

  /** The seam of two texts is a boundary, and cutting there gives them back. */
  lemma Seam(a: string, b: string)
    ensures Boundary(a + b, Len8(a)) && ToUtf16(a + b, Len8(a)) == Len16(a)
    ensures CharsBefore(a + b, Len8(a)) == |a|
    ensures Before(a + b, Len8(a)) == a && After(a + b, Len8(a)) == b
  {
    SeamAt(a, b);
  }

  lemma {:induction false} SeamAt(a: string, b: string)
    ensures Boundary(a + b, Len8(a)) && ToUtf16(a + b, Len8(a)) == Len16(a) && CharsBefore(a + b, Len8(a)) == |a|
    decreases |a|
  {
    if a == [] {
      assert a + b == b;
    } else {
      SeamAt(a[1..], b);
      assert (a + b)[1..] == a[1..] + b && (a + b)[0] == a[0];
    }
  }

  lemma {:induction false} EndIsBoundary(s: string)
    ensures Boundary(s, Len8(s))
    decreases |s|
  {
    if s != [] {
      EndIsBoundary(s[1..]);
    }
  }

  lemma {:induction false} BoundaryInText(s: string, offset: int)
    requires Boundary(s, offset)
    ensures 0 <= offset <= Len8(s)
    decreases |s|
  {
    if offset != 0 {
      BoundaryInText(s[1..], offset - Utf8(s[0]));
    }
  }

  // ---------- What replacing text does ----------

  /** After a replacement both ends of the new text are boundaries, even if the range was reversed. */
  lemma SplicedBoundaries(s: string, span: Span, text: string)
    requires Boundary(s, span.start) && Boundary(s, span.end)
    ensures var after := Spliced(s, span, text);
            && Boundary(after, span.start) && Boundary(after, span.start + Len8(text))
            && Before(after, span.start) == Before(s, span.start)
            && After(after, span.start + Len8(text)) == After(s, span.end)
  {
    BeforeLength(s, span.start);
    Seams(Before(s, span.start), text, After(s, span.end));
  }

  lemma {:induction false} Seams(front: string, text: string, rest: string)
    ensures var all, start, end := front + text + rest, Len8(front), Len8(front) + Len8(text);
            && Boundary(all, start) && Boundary(all, end)
            && Before(all, start) == front && Before(all, end) == front + text && After(all, end) == rest
  {
    Concat8(front, text);
    Seam(front + text, rest);
    Seam(front, text + rest);
    Associative(front, text, rest);
  }

  lemma Associative(a: string, b: string, c: string)
    ensures a + b + c == a + (b + c)
  {
  }

  /** Putting the removed text back over the new text restores the content. */
  lemma ReplaceBack(s: string, span: Span, text: string)
    requires Boundary(s, span.start) && Boundary(s, span.end) && span.start <= span.end
    ensures Spliced(Spliced(s, span, text), Span(span.start, span.start + Len8(text)), Slice(s, span)) == s
  {
    SplicedBoundaries(s, span, text);
    AroundSlice(s, span);
  }

  lemma AroundSlice(s: string, span: Span)
    requires Boundary(s, span.start) && Boundary(s, span.end) && span.start <= span.end
    ensures Before(s, span.start) + Slice(s, span) + After(s, span.end) == s
  {
    CharsMonotone(s, span.start, span.end);
    ThreeParts(s, CharsBefore(s, span.start), CharsBefore(s, span.end));
  }

  lemma ThreeParts(s: string, i: nat, j: nat)
    requires i <= j <= |s|
    ensures s[..i] + s[i..j] + s[j..] == s
  {
  }

  /** A replacement is at home exactly between the same two sides. */
  lemma SplicedSame(s: string, span: Span, text: string)
    requires span.start <= span.end
    ensures Spliced(s, span, text) == s <==> text == Slice(s, span)
  {
    CharsMonotone(s, span.start, span.end);
    var i, j := CharsBefore(s, span.start), CharsBefore(s, span.end);
    ThreeParts(s, i, j);
    if Spliced(s, span, text) == s {
      assert |text| == j - i;
      assert text == (s[..i] + text + s[j..])[i..j];
    }
  }

  // ---------- Graphemes ----------

  /** Where graphemes start: at boundaries before the end, in order, the first at 0. */
  ghost predicate Segments(starts: seq<nat>, s: string) {
    && (s != [] ==> starts != [] && starts[0] == 0)
    && (forall k :: 0 <= k < |starts| ==> StartsAt(s, starts[k]))
    && (forall i, j :: 0 <= i < j < |starts| ==> starts[i] < starts[j])
  }

  ghost predicate StartsAt(s: string, offset: nat) {
    Boundary(s, offset) && offset < Len8(s)
  }

  /** The last grapheme start before an offset, or the start of the text. */
  ghost predicate IsPrevious(starts: seq<nat>, offset: nat, p: nat) {
    && (p == 0 || (p in starts && p < offset))
    && forall g :: g in starts && g < offset ==> g <= p
  }

  /** The first grapheme start after an offset, or the end of the text. */
  ghost predicate IsNext(starts: seq<nat>, s: string, offset: nat, n: nat) {
    && (n == Len8(s) || (n in starts && offset < n))
    && forall g :: g in starts && offset < g ==> n <= g
  }

  // ---------- The selection ----------

  ghost predicate InText(s: string, span: Span) {
    span.start <= span.end && Boundary(s, span.start) && Boundary(s, span.end)
  }

  ghost predicate MarkInText(s: string, mark: Option<Span>) {
    mark.Some? ==> InText(s, mark.value)
  }

  function CursorOf(span: Span, reversed: bool): nat {
    if reversed then span.start else span.end
  }

  function AnchorOf(span: Span, reversed: bool): nat {
    if reversed then span.end else span.start
  }

  function Caret(offset: nat): Span {
    Span(offset, offset)
  }

  /** What an edit without a range of its own replaces: the marked text if there is some. */
  function Target(mark: Option<Span>, selection: Span): Span {
    if mark.Some? then mark.value else selection
  }

  /** Line breaks become blanks when text is pasted. */
  function OneLine(text: string): (line: string)
    ensures |line| == |text|
    ensures forall k :: 0 <= k < |text| ==> line[k] == if text[k] == '\n' then ' ' else text[k]
  {
    seq(|text|, k requires 0 <= k < |text| => if text[k] == '\n' then ' ' else text[k])
  }

  /** The text from here to the next grapheme was deleted. */
  ghost predicate DeletedTo(starts: seq<nat>, before: string, offset: nat, after: string) {
    exists n :: IsNext(starts, before, offset, n) && after == Spliced(before, Span(offset, n), "")
  }

  /** The selection that marking text computes from the one that was asked for. */
  function NewSelection(content: string, span: Span, selection: Span): Span {
    Span(FromUtf16(content, selection.start) + span.start, FromUtf16(content, selection.end) + span.end)
  }

  /** The selection that was asked for: its place in the new text, seen from where that text begins. */
  function AskedSelection(text: string, span: Span, selection: Span): Span {
    Span(FromUtf16(text, selection.start) + span.start, FromUtf16(text, selection.end) + span.start)
  }

  ghost predicate Lands(s: string, span: Span, text: string, selection: Span) {
    NewSelection(Spliced(s, span, text), span, selection) == AskedSelection(text, span, selection)
  }

  ghost predicate Asks(text: string, selection: Span) {
    selection.start <= selection.end <= Len16(text)
  }

  lemma MarkedText(s: string, span: Span, text: string)
    requires Boundary(s, span.start) && Boundary(s, span.end)
    ensures var mark := Span(span.start, span.start + Len8(text)); Slice(Spliced(s, span, text), mark) == text
  {
    BeforeLength(s, span.start);
    MiddleSlice(Before(s, span.start), text, After(s, span.end));
  }

  lemma MiddleSlice(front: string, text: string, rest: string)
    ensures Slice(front + text + rest, Span(Len8(front), Len8(front) + Len8(text))) == text
  {
    Concat8(front, text);
    Seam(front + text, rest);
    Seam(front, text + rest);
    Associative(front, text, rest);
  }

  /** As long as the target lies in the first of two texts, the second makes no difference. */
  lemma {:induction false} FromUtf16InFront(a: string, b: string, target: int)
    requires target <= Len16(a)
    ensures FromUtf16(a + b, target) == FromUtf16(a, target)
    decreases |a|
  {
    if target > 0 {
      assert (a + b)[1..] == a[1..] + b;
      FromUtf16InFront(a[1..], b, target - Utf16(a[0]));
    }
  }

  /** Inserting at the very start, every selection asked for is the one that results... */
  lemma LandsAtStart(s: string, text: string, selection: Span)
    requires Asks(text, selection)
    ensures Lands(s, Span(0, 0), text, selection)
  {
    assert Spliced(s, Span(0, 0), text) == text + s;
    FromUtf16InFront(text, s, selection.start);
    FromUtf16InFront(text, s, selection.end);
  }

  /** ... over any other range, some selection within some text is not. */
  lemma MissesElsewhere(s: string, span: Span) returns (text: string, selection: Span)
    requires Boundary(s, span.start) && Boundary(s, span.end) && span != Span(0, 0)
    ensures Asks(text, selection) && !Lands(s, span, text, selection)
  {
    if span.start != span.end {
      text, selection := "", Span(0, 0);
    } else {
      text := if Utf8(s[0]) == 1 then "\U{E9}" else "x";
      selection := Span(1, 1);
      var after := Spliced(s, span, text);
      assert after[0] == s[0] by {
        assert CharsBefore(s, span.start) >= 1;
      }
      OneUnit(after);
      OneUnit(text);
    }
  }

  lemma OneUnit(s: string)
    requires s != []
    ensures FromUtf16(s, 1) == Utf8(s[0]) && 1 <= Len16(s)
  {
  }

  /**
   * Marking text over a range gives every selection asked for within the new text exactly when the
   * range is the empty one at the start of the content.
   */
  lemma NewSelectionExactly(s: string, span: Span)
    requires Boundary(s, span.start) && Boundary(s, span.end)
    ensures (forall text, selection :: Asks(text, selection) ==> Lands(s, span, text, selection)) <==> span == Span(0, 0)
  {
    if span == Span(0, 0) {
      forall text, selection | Asks(text, selection) ensures Lands(s, span, text, selection) {
        LandsAtStart(s, text, selection);
      }
    } else {
      var text, selection := MissesElsewhere(s, span);
    }
  }

  /**
   * A given selection is the one that results exactly when its ends are as many bytes into the text
   * before the range, followed by the new text, as into the new text alone, up to the length of the
   * replaced range at the far end. This only reduces the question to the text up to the end of the new
   * one; what decides it for all texts and selections is `NewSelectionExactly`.
   */
  lemma LandsExactly(s: string, span: Span, text: string, selection: Span)
    requires Boundary(s, span.start) && Boundary(s, span.end) && Asks(text, selection)
    ensures Lands(s, span, text, selection) <==>
            && FromUtf16(Before(s, span.start) + text, selection.start) == FromUtf16(text, selection.start)
            && FromUtf16(Before(s, span.start) + text, selection.end) + span.end == FromUtf16(text, selection.end) + span.start
  {
    var front := Before(s, span.start) + text;
    Concat8(Before(s, span.start), text);
    FromUtf16InFront(front, After(s, span.end), selection.start);
    FromUtf16InFront(front, After(s, span.end), selection.end);
  }

  /** Characters of one byte. */
  predicate Plain(s: string) {
    s == [] || (Utf8(s[0]) == 1 && Plain(s[1..]))
  }

  lemma {:induction false} PlainOffset(s: string, offset: nat)
    requires Plain(s) && offset <= Len16(s)
    ensures FromUtf16(s, offset) == offset
    decreases |s|
  {
    if offset > 0 {
      PlainOffset(s[1..], offset - 1);
    }
  }

  lemma {:induction false} PlainConcat(a: string, b: string)
    requires Plain(a) && Plain(b)
    ensures Plain(a + b)
    decreases |a|
  {
    if a == [] {
      assert a + b == b;
    } else {
      PlainConcat(a[1..], b);
      assert (a + b)[1..] == a[1..] + b;
    }
  }

  /** At a caret, one-byte text after one-byte text gets every selection asked for. */
  lemma PlainLandsAtCaret(s: string, offset: nat, text: string, selection: Span)
    requires Boundary(s, offset) && Plain(Before(s, offset)) && Plain(text) && Asks(text, selection)
    ensures Lands(s, Caret(offset), text, selection)
  {
    LandsExactly(s, Caret(offset), text, selection);
    PlainConcat(Before(s, offset), text);
    Concat8(Before(s, offset), text);
    PlainOffset(Before(s, offset) + text, selection.start);
    PlainOffset(Before(s, offset) + text, selection.end);
    PlainOffset(text, selection.start);
    PlainOffset(text, selection.end);
  }

  // ---------- When the selection is valid at all ----------

  ghost predicate StaysInText(s: string, span: Span, text: string, selection: Span) {
    InText(Spliced(s, span, text), NewSelection(Spliced(s, span, text), span, selection))
  }

  lemma InTextAtStart(s: string, text: string, selection: Span)
    requires Asks(text, selection)
    ensures StaysInText(s, Span(0, 0), text, selection)
  {
    var after := Spliced(s, Span(0, 0), text);
    FromUtf16Reaches(after, selection.start);
    FromUtf16Reaches(after, selection.end);
    FromUtf16Monotone(after, selection.start, selection.end);
  }

  function Blanks(n: nat): (s: string)
    ensures |s| == n
  {
    if n == 0 then "" else " " + Blanks(n - 1)
  }

  /** A text of `n` blanks and a character of two bytes. */
  function BlanksAndWide(n: nat): string {
    Blanks(n) + "\U{E9}"
  }

  lemma {:induction false} BlanksLength(n: nat)
    ensures Len8(Blanks(n)) == n
  {
    if n > 0 {
      BlanksLength(n - 1);
      assert Blanks(n)[1..] == Blanks(n - 1);
    }
  }

  /** Inside a character there is no boundary. */
  lemma {:induction false} NoBoundaryInside(front: string, c: char, rest: string)
    requires Utf8(c) > 1
    ensures !Boundary(front + [c] + rest, Len8(front) + 1)
    decreases |front|
  {
    var s := front + [c] + rest;
    if front == [] {
      assert s[0] == c;
      BoundaryNotNegative(s[1..], 1 - Utf8(c));
    } else {
      NoBoundaryInside(front[1..], c, rest);
      assert s[1..] == front[1..] + [c] + rest;
    }
  }

  lemma BoundaryNotNegative(s: string, offset: int)
    requires offset < 0
    ensures !Boundary(s, offset)
  {
  }

  /** A two-byte character put across an offset past the start of the new text. */
  lemma WideAcross(s: string, span: Span, distance: nat)
    requires Boundary(s, span.start) && distance > 0
    ensures !Boundary(Spliced(s, span, BlanksAndWide(distance - 1)), span.start + distance)
  {
    var front := Before(s, span.start) + Blanks(distance - 1);
    BeforeLength(s, span.start);
    BlanksLength(distance - 1);
    Concat8(Before(s, span.start), Blanks(distance - 1));
    NoBoundaryInside(front, '\U{E9}', After(s, span.end));
    assert Spliced(s, span, BlanksAndWide(distance - 1)) == front + ['\U{E9}'] + After(s, span.end);
  }

  /** Over any range but the empty one at the start, some selection within some text leaves it. */
  lemma LeavesElsewhere(s: string, span: Span) returns (text: string, selection: Span)
    requires Boundary(s, span.start) && Boundary(s, span.end) && span != Span(0, 0)
    ensures Asks(text, selection) && !StaysInText(s, span, text, selection)
  {
    selection := Span(0, 0);
    if span.end < span.start {
      text := "";
    } else if span.start < span.end {
      text := BlanksAndWide(span.end - span.start - 1);
      WideAcross(s, span, span.end - span.start);
    } else {
      selection := Span(1, 1);
      text := BlanksAndWide(Utf8(s[0]) - 1);
      WideAcross(s, span, Utf8(s[0]));
      var after := Spliced(s, span, text);
      assert after[0] == s[0] by {
        assert CharsBefore(s, span.start) >= 1;
      }
      OneUnit(after);
      OneUnit(text);
    }
  }

  /**
   * Marking text over a range gives a valid selection, whatever selection within the new text is
   * asked for, exactly when the range is the empty one at the start of the content.
   */
  lemma NewSelectionValidExactly(s: string, span: Span)
    requires Boundary(s, span.start) && Boundary(s, span.end)
    ensures (forall text, selection :: Asks(text, selection) ==> StaysInText(s, span, text, selection)) <==> span == Span(0, 0)
  {
    if span == Span(0, 0) {
      forall text, selection | Asks(text, selection) ensures StaysInText(s, span, text, selection) {
        InTextAtStart(s, text, selection);
      }
    } else {
      var text, selection := LeavesElsewhere(s, span);
    }
  }

  /** The selection can even lie past the end: marking "x" over "ab", with the cursor asked for behind it. */
  lemma NewSelectionOutside()
    ensures Asks("x", Span(1, 1)) && Spliced("ab", Span(0, 2), "x") == "x"
    ensures NewSelection("x", Span(0, 2), Span(1, 1)) == Span(1, 3) && !Boundary("x", 3)
  {
    OneUnit("x");
    assert "ab"[1..] == "b";
    assert CharsBefore("b", 1) == 1;
    assert CharsBefore("ab", 2) == 2;
    assert "x"[1..] == "";
    assert !Boundary("", 2);
  }

  /**
   * Cutting and then pasting restores the content exactly when what was to go, the marked text if
   * there is some, is the selection on one line.
   */
  lemma CutThenPaste(s: string, mark: Option<Span>, selection: Span)
    requires InText(s, selection) && MarkInText(s, mark)
    ensures var target := Target(mark, selection);
            Spliced(Spliced(s, target, ""), Caret(target.start), OneLine(Slice(s, selection))) == s
            <==> OneLine(Slice(s, selection)) == Slice(s, target)
  {
    var target := Target(mark, selection);
    SplicedBoundaries(s, target, "");
    SplicedSame(s, target, OneLine(Slice(s, selection)));
  }

  /** With the second character of "abc" marked and the third selected: cut copies "c" and deletes "b". */
  lemma CutDeletesMarked()
    ensures Slice("abc", Span(2, 3)) == "c" && Spliced("abc", Target(Some(Span(1, 2)), Span(2, 3)), "") == "ac"
  {
    PlainCut("abc", 1);
    PlainCut("abc", 2);
    PlainCut("abc", 3);
  }

  lemma {:induction false} PlainCut(s: string, offset: nat)
    requires Plain(s) && offset <= |s|
    ensures CharsBefore(s, offset) == offset
    decreases |s|
  {
    if offset > 0 {
      PlainCut(s[1..], offset - 1);
    }
  }

  /** Without marked text: exactly when no line break was cut. */
  lemma OnOneLine(text: string)
    ensures OneLine(text) == text <==> '\n' !in text
  {
    if '\n' in text {
      var k :| 0 <= k < |text| && text[k] == '\n';
      assert OneLine(text)[k] != text[k];
    }
  }

  class TextInput {
    /** Where the graphemes of a text start. */
    const graphemes: string -> seq<nat>
    var content: string
    var selectedRange: Span
    var selectionReversed: bool
    var markedRange: Option<Span>
    var isSelecting: bool

    constructor (graphemes: string -> seq<nat>)
      ensures Valid() && content == "" && this.graphemes == graphemes
    {
      this.graphemes := graphemes;
      content, selectedRange, selectionReversed, markedRange, isSelecting := "", Span(0, 0), false, None, false;
    }

    /** The selection and the marked text are in order, in range and on boundaries. */
    ghost predicate Valid()
      reads this`content, this`selectedRange, this`markedRange
    {
      InText(content, selectedRange) && MarkInText(content, markedRange)
    }

    function Cursor(): nat
      reads this`selectedRange, this`selectionReversed
    {
      CursorOf(selectedRange, selectionReversed)
    }

    ghost function Anchor(): nat
      reads this`selectedRange, this`selectionReversed
    {
      AnchorOf(selectedRange, selectionReversed)
    }

    // ---------- Offsets ----------

    method OffsetFromUtf16(offset: nat) returns (utf8: nat)
      ensures utf8 == FromUtf16(content, offset)
    {
      var k, utf16 := 0, 0;
      utf8 := 0;
      while k < |content| && utf16 < offset
        invariant 0 <= k <= |content|
        invariant utf8 + FromUtf16(content[k..], offset - utf16) == FromUtf16(content, offset)
      {
        utf16 := utf16 + Utf16(content[k]);
        utf8 := utf8 + Utf8(content[k]);
        k := k + 1;
      }
    }

    method OffsetToUtf16(offset: nat) returns (utf16: nat)
      ensures utf16 == ToUtf16(content, offset)
    {
      var k, utf8 := 0, 0;
      utf16 := 0;
      while k < |content| && utf8 < offset
        invariant 0 <= k <= |content|
        invariant utf16 + ToUtf16(content[k..], offset - utf8) == ToUtf16(content, offset)
      {
        utf8 := utf8 + Utf8(content[k]);
        utf16 := utf16 + Utf16(content[k]);
        k := k + 1;
      }
    }

    method RangeFromUtf16(range: Span) returns (span: Span)
      ensures span == Span(FromUtf16(content, range.start), FromUtf16(content, range.end))
      ensures Boundary(content, span.start) && Boundary(content, span.end)
      ensures range.start <= range.end ==> span.start <= span.end
    {
      var start := OffsetFromUtf16(range.start);
      var end := OffsetFromUtf16(range.end);
      FromUtf16Reaches(content, range.start);
      FromUtf16Reaches(content, range.end);
      if range.start <= range.end {
        FromUtf16Monotone(content, range.start, range.end);
      }
      span := Span(start, end);
    }

    method RangeToUtf16(span: Span) returns (range: Span)
      ensures range == Span(ToUtf16(content, span.start), ToUtf16(content, span.end))
    {
      var start := OffsetToUtf16(span.start);
      var end := OffsetToUtf16(span.end);
      range := Span(start, end);
    }

    method PreviousBoundary(offset: nat) returns (p: nat)
      requires Segments(graphemes(content), content)
      ensures IsPrevious(graphemes(content), offset, p) && Boundary(content, p)
    {
      var starts := graphemes(content);
      var k := |starts|;
      while 0 < k
        invariant 0 <= k <= |starts|
        invariant forall g :: k <= g < |starts| ==> offset <= starts[g]
      {
        k := k - 1;
        if starts[k] < offset {
          assert StartsAt(content, starts[k]);
          return starts[k];
        }
      }
      p := 0;
    }

    method NextBoundary(offset: nat) returns (n: nat)
      requires Segments(graphemes(content), content)
      ensures IsNext(graphemes(content), content, offset, n) && Boundary(content, n)
    {
      var starts := graphemes(content);
      EndIsBoundary(content);
      for k := 0 to |starts|
        invariant forall g :: 0 <= g < k ==> starts[g] <= offset
      {
        if offset < starts[k] {
          assert StartsAt(content, starts[k]);
          return starts[k];
        }
      }
      n := Length(content);
    }

    // ---------- Selecting ----------

    method MoveTo(offset: nat)
      requires Valid() && Boundary(content, offset)
      modifies this`selectedRange
      ensures Valid() && selectedRange == Caret(offset)
    {
      selectedRange := Caret(offset);
    }

    /** Moves the cursor and leaves the other end where it is, whichever of the two comes first. */
    method SelectTo(offset: nat)
      requires Valid() && Boundary(content, offset)
      modifies this`selectedRange, this`selectionReversed
      ensures Valid() && Cursor() == offset && Anchor() == old(Anchor())
      ensures offset <= old(Anchor()) ==> selectedRange == Span(offset, old(Anchor()))
      ensures offset >= old(Anchor()) ==> selectedRange == Span(old(Anchor()), offset)
      ensures selectionReversed <==> offset < old(Anchor()) || (offset == old(Anchor()) && old(selectionReversed))
    {
      if selectionReversed {
        selectedRange := selectedRange.(start := offset);
      } else {
        selectedRange := selectedRange.(end := offset);
      }
      if selectedRange.end < selectedRange.start {
        selectionReversed := !selectionReversed;
        selectedRange := Span(selectedRange.end, selectedRange.start);
      }
    }

    method Left()
      requires Valid() && Segments(graphemes(content), content)
      modifies this`selectedRange
      ensures Valid() && selectedRange.start == selectedRange.end
      ensures old(selectedRange.start == selectedRange.end) ==>
                IsPrevious(graphemes(content), old(selectedRange.start), selectedRange.start)
      ensures old(selectedRange.start != selectedRange.end) ==> selectedRange.start == old(selectedRange.start)
    {
      if selectedRange.start == selectedRange.end {
        var p := PreviousBoundary(Cursor());
        MoveTo(p);
      } else {
        MoveTo(selectedRange.start);
      }
    }

    method Right()
      requires Valid() && Segments(graphemes(content), content)
      modifies this`selectedRange
      ensures Valid() && selectedRange.start == selectedRange.end
      ensures old(selectedRange.start == selectedRange.end) ==>
                IsNext(graphemes(content), content, old(selectedRange.end), selectedRange.end)
      ensures old(selectedRange.start != selectedRange.end) ==> selectedRange.end == old(selectedRange.end)
    {
      if selectedRange.start == selectedRange.end {
        var n := NextBoundary(selectedRange.end);
        MoveTo(n);
      } else {
        MoveTo(selectedRange.end);
      }
    }

    method SelectLeft()
      requires Valid() && Segments(graphemes(content), content)
      modifies this`selectedRange, this`selectionReversed
      ensures Valid() && Anchor() == old(Anchor())
      ensures IsPrevious(graphemes(content), old(Cursor()), Cursor())
    {
      var p := PreviousBoundary(Cursor());
      SelectTo(p);
    }

    method SelectRight()
      requires Valid() && Segments(graphemes(content), content)
      modifies this`selectedRange, this`selectionReversed
      ensures Valid() && Anchor() == old(Anchor())
      ensures IsNext(graphemes(content), content, old(Cursor()), Cursor())
    {
      var n := NextBoundary(Cursor());
      SelectTo(n);
    }

    method SelectAll()
      requires Valid()
      modifies this`selectedRange, this`selectionReversed
      ensures Valid() && selectedRange == Span(0, Len8(content))
    {
      MoveTo(0);
      EndIsBoundary(content);
      var end := Length(content);
      SelectTo(end);
    }

    method Home()
      requires Valid()
      modifies this`selectedRange
      ensures Valid() && selectedRange == Caret(0)
    {
      MoveTo(0);
    }

    method End()
      requires Valid()
      modifies this`selectedRange
      ensures Valid() && selectedRange == Caret(Len8(content))
    {
      EndIsBoundary(content);
      var end := Length(content);
      MoveTo(end);
    }

    /** The mouse goes down over the character boundary `index`. */
    method OnMouseDown(index: nat, shift: bool)
      requires Valid() && Boundary(content, index)
      modifies this`selectedRange, this`selectionReversed, this`isSelecting
      ensures Valid() && isSelecting && Cursor() == index
      ensures Anchor() == if shift then old(Anchor()) else index
    {
      isSelecting := true;
      if shift {
        SelectTo(index);
      } else {
        MoveTo(index);
      }
    }

    method OnMouseMove(index: nat)
      requires Valid() && Boundary(content, index)
      modifies this`selectedRange, this`selectionReversed
      ensures Valid() && Anchor() == old(Anchor())
      ensures Cursor() == if isSelecting then index else old(Cursor())
    {
      if isSelecting {
        SelectTo(index);
      }
    }

    method OnMouseUp()
      modifies this`isSelecting
      ensures !isSelecting
    {
      isSelecting := false;
    }

    // ---------- Editing ----------

    /** The range an edit is about: the given one, else the marked text, else the selection. */
    method Resolve(range: Option<Span>) returns (span: Span)
      requires Valid()
      ensures Boundary(content, span.start) && Boundary(content, span.end)
      ensures range.None? ==> span == Target(markedRange, selectedRange)
      ensures range.Some? ==> span == Span(FromUtf16(content, range.value.start), FromUtf16(content, range.value.end))
    {
      if range.Some? {
        span := RangeFromUtf16(range.value);
      } else if markedRange.Some? {
        span := markedRange.value;
      } else {
        span := selectedRange;
      }
    }

    /** Replaces a range, in UTF-16 offsets, by new text, and leaves the cursor behind that text. */
    method ReplaceTextInRange(range: Option<Span>, text: string) returns (ghost span: Span)
      requires Valid()
      modifies this`content, this`selectedRange, this`markedRange
      ensures Valid()
      ensures span == if range.Some? then Span(FromUtf16(old(content), range.value.start), FromUtf16(old(content), range.value.end))
                      else Target(old(markedRange), old(selectedRange))
      ensures content == Spliced(old(content), span, text)
      ensures selectedRange == Caret(span.start + Len8(text)) && markedRange == None
      ensures Before(content, selectedRange.start) == Before(old(content), span.start) + text
      ensures After(content, selectedRange.start) == After(old(content), span.end)
    {
      var target := Resolve(range);
      SplicedBoundaries(content, target, text);
      var length := Length(text);
      content := Before(content, target.start) + text + After(content, target.end);
      selectedRange := Caret(target.start + length);
      markedRange := None;
      span := target;
    }

    /** Rings the bell at the start of the text, and otherwise deletes marked text, selection or grapheme before. */
    method Backspace() returns (bell: bool)
      requires Valid() && Segments(graphemes(content), content)
      modifies this`content, this`selectedRange, this`selectionReversed, this`markedRange
      ensures Valid()
      ensures bell == old(selectedRange == Caret(0))
      ensures bell ==> content == old(content) && selectedRange == old(selectedRange) && markedRange == old(markedRange)
      ensures !bell && old(markedRange.Some?) ==> content == Spliced(old(content), old(markedRange.value), "")
      ensures !bell && old(markedRange.None? && selectedRange.start != selectedRange.end) ==>
                content == Spliced(old(content), old(selectedRange), "")
      ensures !bell && old(markedRange.None? && selectedRange.start == selectedRange.end) ==>
                && IsPrevious(graphemes(old(content)), old(selectedRange.start), selectedRange.start)
                && content == Spliced(old(content), Span(selectedRange.start, old(selectedRange.start)), "")
      ensures !bell ==> selectedRange.start == selectedRange.end && markedRange == None
    {
      if selectedRange.start == selectedRange.end {
        var prev := PreviousBoundary(Cursor());
        BoundaryInText(content, Cursor());
        if Cursor() == prev {
          return true;
        }
        SelectTo(prev);
      }
      ghost var _ := ReplaceTextInRange(None, "");
      bell := false;
    }

    /** Rings the bell at the end of the text, and otherwise deletes marked text, selection or grapheme after. */
    method Delete() returns (bell: bool)
      requires Valid() && Segments(graphemes(content), content)
      modifies this`content, this`selectedRange, this`selectionReversed, this`markedRange
      ensures Valid()
      ensures bell == old(selectedRange == Caret(Len8(content)))
      ensures bell ==> content == old(content) && selectedRange == old(selectedRange) && markedRange == old(markedRange)
      ensures !bell && old(markedRange.Some?) ==> content == Spliced(old(content), old(markedRange.value), "")
      ensures !bell && old(markedRange.None? && selectedRange.start != selectedRange.end) ==>
                content == Spliced(old(content), old(selectedRange), "")
      ensures !bell && old(markedRange.None? && selectedRange.start == selectedRange.end) ==>
                && selectedRange.start == old(selectedRange.start)
                && DeletedTo(graphemes(old(content)), old(content), selectedRange.start, content)
      ensures !bell ==> selectedRange.start == selectedRange.end && markedRange == None
    {
      if selectedRange.start == selectedRange.end {
        var next := NextBoundary(Cursor());
        BoundaryInText(content, Cursor());
        if Cursor() == next {
          return true;
        }
        SelectTo(next);
      }
      ghost var _ := ReplaceTextInRange(None, "");
      bell := false;
    }

    /** The selected text for the clipboard, if there is some. */
    method Copy() returns (clipboard: Option<string>)
      requires Valid()
      ensures clipboard == if selectedRange.start == selectedRange.end then None else Some(Slice(content, selectedRange))
    {
      if selectedRange.start == selectedRange.end {
        clipboard := None;
      } else {
        clipboard := Some(Slice(content, selectedRange));
      }
    }

    /** Copies the selection; what it deletes is the marked text if there is some. */
    method Cut() returns (clipboard: Option<string>)
      requires Valid()
      modifies this`content, this`selectedRange, this`markedRange
      ensures Valid()
      ensures old(selectedRange.start == selectedRange.end) ==>
                && clipboard == None && content == old(content)
                && selectedRange == old(selectedRange) && markedRange == old(markedRange)
      ensures old(selectedRange.start != selectedRange.end) ==>
                && clipboard == Some(Slice(old(content), old(selectedRange)))
                && content == Spliced(old(content), Target(old(markedRange), old(selectedRange)), "")
                && selectedRange == Caret(Target(old(markedRange), old(selectedRange)).start) && markedRange == None
    {
      clipboard := Copy();
      if clipboard.Some? {
        ghost var _ := ReplaceTextInRange(None, "");
      }
    }

    method Paste(clipboard: Option<string>)
      requires Valid()
      modifies this`content, this`selectedRange, this`markedRange
      ensures Valid()
      ensures clipboard.None? ==>
                content == old(content) && selectedRange == old(selectedRange) && markedRange == old(markedRange)
      ensures clipboard.Some? ==>
                && content == Spliced(old(content), Target(old(markedRange), old(selectedRange)), OneLine(clipboard.value))
                && selectedRange.start == selectedRange.end && markedRange == None
    {
      if clipboard.Some? {
        ghost var _ := ReplaceTextInRange(None, OneLine(clipboard.value));
      }
    }

    /**
     * Replaces a range by text that is marked as still being composed. Without a selection asked
     * for, the cursor goes behind that text; one that is asked for is read off the whole new
     * content and moved by the two ends of the replaced range.
     */
    method ReplaceAndMarkTextInRange(range: Option<Span>, text: string, selection: Option<Span>) returns (ghost span: Span)
      requires Valid()
      modifies this`content, this`selectedRange, this`markedRange
      ensures span == if range.Some? then Span(FromUtf16(old(content), range.value.start), FromUtf16(old(content), range.value.end))
                      else Target(old(markedRange), old(selectedRange))
      ensures content == Spliced(old(content), span, text)
      ensures markedRange == if text == "" then None else Some(Span(span.start, span.start + Len8(text)))
      ensures MarkInText(content, markedRange)
      ensures markedRange.Some? ==> Slice(content, markedRange.value) == text
      ensures selection.None? ==> Valid() && selectedRange == Caret(span.start + Len8(text))
      ensures selection.Some? ==> selectedRange == NewSelection(content, span, selection.value)
    {
      var target := Resolve(range);
      var length := Length(text);
      MarkReplacement(target, text, length);
      SelectReplacement(target, length, selection);
      span := target;
    }

    /** Moves the selection asked for by the ends of the replaced range, or puts the cursor behind the new text. */
    method SelectReplacement(target: Span, length: nat, selection: Option<Span>)
      modifies this`selectedRange
      ensures selectedRange == if selection.Some? then NewSelection(content, target, selection.value)
                               else Caret(target.start + length)
    {
      if selection.Some? {
        var asked := RangeFromUtf16(selection.value);
        selectedRange := Span(asked.start + target.start, asked.end + target.end);
      } else {
        selectedRange := Caret(target.start + length);
      }
    }

    /** Puts the new text in place and marks it. */
    method MarkReplacement(target: Span, text: string, length: nat)
      requires Boundary(content, target.start) && Boundary(content, target.end) && length == Len8(text)
      modifies this`content, this`markedRange
      ensures content == Spliced(old(content), target, text)
      ensures markedRange == if text == "" then None else Some(Span(target.start, target.start + length))
      ensures MarkInText(content, markedRange) && InText(content, Caret(target.start + length))
      ensures markedRange.Some? ==> Slice(content, markedRange.value) == text
    {
      MarkedText(content, target, text);
      SplicedBoundaries(content, target, text);
      content := Before(content, target.start) + text + After(content, target.end);
      markedRange := if text != "" then Some(Span(target.start, target.start + length)) else None;
    }

    method UnmarkText()
      requires Valid()
      modifies this`markedRange
      ensures Valid() && markedRange == None
    {
      markedRange := None;
    }

    /** The text of a range in UTF-16 offsets, and the range it was rounded to; a reversed range panics. */
    method TextForRange(range: Span) returns (actual: Span, text: Option<string>)
      ensures actual == Span(ToUtf16(content, FromUtf16(content, range.start)), ToUtf16(content, FromUtf16(content, range.end)))
      ensures FromUtf16(content, range.start) <= FromUtf16(content, range.end) ==>
                text == Some(Slice(content, Span(FromUtf16(content, range.start), FromUtf16(content, range.end))))
      ensures FromUtf16(content, range.start) > FromUtf16(content, range.end) ==> text == None
    {
      var span := RangeFromUtf16(range);
      actual := RangeToUtf16(span);
      text := if span.start <= span.end then Some(Slice(content, span)) else None;
    }

    /** The selection in UTF-16 offsets: taking it back gives the selection. */
    method SelectedTextRange() returns (range: Span)
      requires Valid()
      ensures FromUtf16(content, range.start) == selectedRange.start && FromUtf16(content, range.end) == selectedRange.end
      ensures range.start <= range.end
    {
      range := RangeToUtf16(selectedRange);
      RoundTrip(content, selectedRange.start);
      RoundTrip(content, selectedRange.end);
      ToUtf16Monotone(content, selectedRange.start, selectedRange.end);
    }

    method Reset()
      modifies this`content, this`selectedRange, this`selectionReversed, this`markedRange, this`isSelecting
      ensures Valid() && content == "" && markedRange == None && !selectionReversed && !isSelecting
    {
      content, selectedRange, selectionReversed, markedRange, isSelecting := "", Span(0, 0), false, None, false;
    }
  }

  method Length(s: string) returns (length: nat)
    ensures length == Len8(s)
  {
    length := 0;
    for k := 0 to |s|
      invariant length + Len8(s[k..]) == Len8(s)
    {
      length := length + Utf8(s[k]);
    }
  }
}
