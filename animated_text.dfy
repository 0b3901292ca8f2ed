/**
 * The text-reveal component: it splits a string into display units (characters,
 * words or lines) and gives unit i the start delay `delay + i * step`, so that the
 * units animate in order once the element is in view.
 */
module AnimatedText {
  import opened Wrappers

  /** The `type` prop: which units the text is split into. */
  datatype SplitMode = Chars | Words | Lines

  /** The prop defaults: `type = 'words'`, `delay = 0`. */
  const DefaultMode: SplitMode := Words
  const DefaultDelay: real := 0.0

  /** U+00A0, the non-breaking space a space character is displayed as in `chars` mode. */
  const Nbsp: char := '\U{00A0}'

  /** Per-unit stagger, in seconds. */
  function Step(mode: SplitMode): (step: real)
    ensures step > 0.0
  {
    match mode
    case Chars => 0.02
    case Lines => 0.15
    case Words => 0.05
  }

  /** The start delay of unit i: the base delay plus i staggers. */
  function UnitDelay(mode: SplitMode, delay: real, i: nat): (d: real)
  {
    delay + (i as real) * Step(mode)
  }

  /** Start delays grow with the unit's index and never fall below the base delay. */
  lemma UnitDelayMonotone(mode: SplitMode, delay: real)
    ensures forall i: nat :: UnitDelay(mode, delay, i) >= delay
    ensures forall i: nat, j: nat :: i < j ==> UnitDelay(mode, delay, i) < UnitDelay(mode, delay, j)
  {
    match mode
    case Chars => assert Step(mode) == 0.02;
    case Lines => assert Step(mode) == 0.15;
    case Words => assert Step(mode) == 0.05;
  }

  /** Per-unit animation duration, in seconds. */
  function Duration(mode: SplitMode): (duration: real)
  {
    match mode
    case Chars => 0.5
    case Lines => 0.8
    case Words => 0.6
  }

  /** The pieces joined back together with `sep` between consecutive pieces. */
  function Join(parts: seq<string>, sep: char): (joined: string)
    requires |parts| >= 1
  {
    if |parts| == 1 then parts[0] else parts[0] + [sep] + Join(parts[1..], sep)
  }

  /**
   * `s.split(sep)` for a one-character separator, as JavaScript defines it: the
   * pieces between separators, in order, empty pieces kept, so there is always
   * one piece more than there are separators.
   */
  function Split(s: string, sep: char): (parts: seq<string>)
    ensures |parts| == Occurrences(s, sep) + 1
    ensures SepFree(parts, sep)
    ensures Join(parts, sep) == s
  {
    if |s| == 0 then [""]
    else
      var rest := Split(s[1..], sep);
      assert s == [s[0]] + s[1..];
      if s[0] == sep then
        SepFreeReplaceHead("", [""] + rest, sep);
        assert ([""] + rest)[1..] == rest;
        [""] + rest
      else
        JoinExtendsFirst(s[0], rest, sep);
        SepFreeReplaceHead([s[0]] + rest[0], rest, sep);
        [[s[0]] + rest[0]] + rest[1..]
  }

  /** The number of times c occurs in s. */
  function Occurrences(s: string, c: char): (n: nat)
  {
    if |s| == 0 then 0 else (if s[0] == c then 1 else 0) + Occurrences(s[1..], c)
  }

  /** Occurrences is the multiplicity of c in the multiset of s's characters. */
  lemma {:induction false} OccurrencesIsMultiplicity(s: string, c: char)
    ensures Occurrences(s, c) == multiset(s)[c]
  {
    if |s| > 0 {
      OccurrencesIsMultiplicity(s[1..], c);
      assert s == [s[0]] + s[1..];
    }
  }

  /** No piece contains the separator. */
  predicate SepFree(parts: seq<string>, sep: char)
  {
    forall k :: 0 <= k < |parts| ==> sep !in parts[k]
  }

  /** Replacing the first piece by another sep-free piece keeps every piece sep-free. */
  lemma SepFreeReplaceHead(p: string, parts: seq<string>, sep: char)
    requires |parts| >= 1 && sep !in p
    requires forall k :: 1 <= k < |parts| ==> sep !in parts[k]
    ensures SepFree([p] + parts[1..], sep)
  {
    var r := [p] + parts[1..];
    forall k | 0 <= k < |r| ensures sep !in r[k] {
      if k > 0 {
        assert r[k] == parts[k];
      }
    }
  }

  /** Putting a character in front of the first piece puts it in front of the joined string. */
  lemma JoinExtendsFirst(c: char, parts: seq<string>, sep: char)
    requires |parts| >= 1
    ensures Join([[c] + parts[0]] + parts[1..], sep) == [c] + Join(parts, sep)
  {
  }

  /** Joining sep-free pieces and splitting again gives the same pieces back, so
      Split is the only decomposition of a string into sep-free pieces. */
  lemma {:induction false} SplitJoin(parts: seq<string>, sep: char)
    requires |parts| >= 1
    requires SepFree(parts, sep)
    ensures Split(Join(parts, sep), sep) == parts
  {
    if |parts| == 1 {
      SplitNoSep(parts[0], sep);
    } else {
      SplitJoin(parts[1..], sep);
      SplitAtSep(parts[0], sep, Join(parts[1..], sep));
      assert parts == [parts[0]] + parts[1..];
    }
  }

  /** A string without the separator is a single piece. */
  lemma SplitNoSep(a: string, sep: char)
    requires sep !in a
    ensures Split(a, sep) == [a]
  {
  }

  /** Splitting `a + [sep] + b` where a holds no separator: a is the first piece. */
  lemma {:induction false} SplitAtSep(a: string, sep: char, b: string)
    requires sep !in a
    ensures Split(a + [sep] + b, sep) == [a] + Split(b, sep)
  {
    var s := a + [sep] + b;
    if |a| == 0 {
      assert s == [sep] + b;
      SplitSeparatorFirst(s, sep);
    } else {
      assert s[1..] == a[1..] + [sep] + b;
      SplitAtSep(a[1..], sep, b);
      SplitOrdinaryFirst(s, sep);
      assert [a[0]] + a[1..] == a;
    }
  }

  /** A leading separator closes an empty first piece. */
  lemma SplitSeparatorFirst(s: string, sep: char)
    requires |s| > 0 && s[0] == sep
    ensures Split(s, sep) == [""] + Split(s[1..], sep)
  {
  }

  /** A leading character that is not the separator starts the first piece. */
  lemma SplitOrdinaryFirst(s: string, sep: char)
    requires |s| > 0 && s[0] != sep
    ensures Split(s, sep) == [[s[0]] + Split(s[1..], sep)[0]] + Split(s[1..], sep)[1..]
  {
  }

  /** `text.split('')`: one unit per character; unlike `split(' ')`, the empty string gives no unit. */
  function SplitChars(text: string): (units: seq<string>)
    ensures |units| == |text|
    ensures forall i :: 0 <= i < |units| ==> units[i] == [text[i]]
  {
    seq(|text|, i requires 0 <= i < |text| => [text[i]])
  }

  /** The units the text is split into in each mode. */
  function Pieces(text: string, mode: SplitMode): (pieces: seq<string>)
  {
    match mode
    case Chars => SplitChars(text)
    case Words => Split(text, ' ')
    case Lines => Split(text, '\n')
  }

  /** What a unit shows: in `chars` mode a space is shown as a non-breaking space. */
  function Shown(mode: SplitMode, piece: string): (shown: string)
  {
    if mode == Chars && piece == " " then [Nbsp] else piece
  }

  /** One animated unit: the text it shows, its start delay and duration, and
      whether it is given its visible target (`animate={isInView ? … : {}}`). */
  datatype RevealUnit = RevealUnit(text: string, delay: real, duration: real, revealed: bool)

  /** The units the component renders for `text` in `mode` with base delay `delay`. */
  function Partition(text: string, mode: SplitMode, delay: real, isInView: bool): (units: seq<RevealUnit>)
    ensures |units| == |Pieces(text, mode)|
    ensures forall i :: 0 <= i < |units| ==> units[i].delay >= delay
    ensures forall i, j :: 0 <= i < j < |units| ==> units[i].delay < units[j].delay
    ensures forall i :: 0 <= i < |units| ==> units[i].duration == Duration(mode)
    ensures forall i :: 0 <= i < |units| ==> units[i].revealed == isInView
  {
    UnitDelayMonotone(mode, delay);
    var pieces := Pieces(text, mode);
    seq(|pieces|, i requires 0 <= i < |pieces| =>
      RevealUnit(Shown(mode, pieces[i]), UnitDelay(mode, delay, i), Duration(mode), isInView))
  }

  /** The component with its optional props: `type` defaults to words and `delay` to 0. */
  function Render(text: string, mode: Option<SplitMode>, delay: Option<real>, isInView: bool): (units: seq<RevealUnit>)
    ensures mode.None? ==> |units| == multiset(text)[' '] + 1
    ensures mode.None? ==> Texts(units) == Split(text, ' ')
    ensures delay.None? ==> forall i :: 0 <= i < |units| ==> units[i].delay >= 0.0
    ensures delay.None? && |units| > 0 ==> units[0].delay == 0.0
  {
    OccurrencesIsMultiplicity(text, ' ');
    var m := match mode case Some(m) => m case None => DefaultMode;
    var d := match delay case Some(d) => d case None => DefaultDelay;
    Partition(text, m, d, isInView)
  }

  /** Unit i starts `delay + i * step` seconds in, whatever the text. */
  lemma UnitDelays(text: string, mode: SplitMode, delay: real, isInView: bool, i: nat)
    requires i < |Partition(text, mode, delay, isInView)|
    ensures Partition(text, mode, delay, isInView)[i].delay == delay + (i as real) * Step(mode)
  {
  }

  /** The first unit starts at the base delay and each later unit starts exactly
      one stagger step (0.02 s for chars, 0.15 s for lines, 0.05 s for words)
      after the one before it. */
  lemma StaggerSpacing(text: string, mode: SplitMode, delay: real, isInView: bool, i: nat)
    requires i + 1 < |Partition(text, mode, delay, isInView)|
    ensures Partition(text, mode, delay, isInView)[0].delay == delay
    ensures Partition(text, mode, delay, isInView)[i + 1].delay - Partition(text, mode, delay, isInView)[i].delay == Step(mode)
  {
  }

  /** `chars` mode: one unit per character, in order, a space shown as U+00A0 and
      every other character shown as itself. */
  lemma CharsUnits(text: string, delay: real, isInView: bool)
    ensures |Partition(text, Chars, delay, isInView)| == |text|
    ensures forall i :: 0 <= i < |text| ==>
      Partition(text, Chars, delay, isInView)[i].text == [if text[i] == ' ' then Nbsp else text[i]]
  {
  }

  /** The texts of the units, in order. */
  function Texts(units: seq<RevealUnit>): (texts: seq<string>)
    ensures |texts| == |units|
  {
    seq(|units|, i requires 0 <= i < |units| => units[i].text)
  }

  /** `words` mode: one unit per space plus one, none containing a space, and the
      units joined with single spaces give back the text. */
  lemma {:induction false} WordsUnits(text: string, delay: real, isInView: bool)
    ensures |Partition(text, Words, delay, isInView)| == multiset(text)[' '] + 1
    ensures forall i :: 0 <= i < |Partition(text, Words, delay, isInView)| ==>
      ' ' !in Partition(text, Words, delay, isInView)[i].text
    ensures Join(Texts(Partition(text, Words, delay, isInView)), ' ') == text
  {
    OccurrencesIsMultiplicity(text, ' ');
    assert Texts(Partition(text, Words, delay, isInView)) == Split(text, ' ');
  }

  /** `lines` mode: one unit per newline plus one, none containing a newline, and
      the units joined with newlines give back the text. */
  lemma {:induction false} LinesUnits(text: string, delay: real, isInView: bool)
    ensures |Partition(text, Lines, delay, isInView)| == multiset(text)['\n'] + 1
    ensures forall i :: 0 <= i < |Partition(text, Lines, delay, isInView)| ==>
      '\n' !in Partition(text, Lines, delay, isInView)[i].text
    ensures Join(Texts(Partition(text, Lines, delay, isInView)), '\n') == text
  {
    OccurrencesIsMultiplicity(text, '\n');
    assert Texts(Partition(text, Lines, delay, isInView)) == Split(text, '\n');
  }
}
