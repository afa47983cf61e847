/**
 * `components/TestGenerator.tsx`: the strategy and count controls, the count clamping of
 * `handleGenerateClick`, and the `Test #` numbering of the case list.
 */
module TestGenerator {
  import opened Wrappers
  import opened JsStrings
  import opened Types

  const MinCount := 1
  const MaxCount := 20
  /** The initial text of the count field. */
  const DefaultCountText := "5"

  /** The count a click sends for the text in the count field: `parseInt`, then the two clamps. */
  function EffectiveCount(countText: string): (n: int)
    ensures MinCount <= n <= MaxCount
    ensures ParseInt(countText).None? ==> n == MinCount
    ensures ParseInt(countText).Some? && ParseInt(countText).value < MinCount ==> n == MinCount
    ensures ParseInt(countText).Some? && ParseInt(countText).value > MaxCount ==> n == MaxCount
    ensures ParseInt(countText).Some? && MinCount <= ParseInt(countText).value <= MaxCount ==> n == ParseInt(countText).value
  {
    var parsed := ParseInt(countText);
    if parsed.None? || parsed.value < MinCount then MinCount
    else if parsed.value > MaxCount then MaxCount
    else parsed.value
  }

  /** The decimal texts of 1 to 20 are sent as they are. */
  lemma DecimalCountsPassThrough(n: nat)
    requires MinCount <= n <= MaxCount
    ensures EffectiveCount(DecimalString(n)) == n
  {
    ParseIntOfDecimalString(n);
  }

  /** After a click the field holds the sent count, so clicking again sends the same count. */
  lemma SecondClickSendsSameCount(countText: string)
    ensures EffectiveCount(DecimalString(EffectiveCount(countText))) == EffectiveCount(countText)
  {
    DecimalCountsPassThrough(EffectiveCount(countText));
  }

  /** The decimal text of a number above 20 sends 20, and that of zero sends 1. */
  lemma DecimalCountsClamped(n: nat)
    requires n < MinCount || n > MaxCount
    ensures EffectiveCount(DecimalString(n)) == (if n < MinCount then MinCount else MaxCount)
  {
    ParseIntOfDecimalString(n);
  }

  /** A minus sign before digits always sends 1. */
  lemma NegativeCountsSendOne(n: nat)
    ensures EffectiveCount("-" + DecimalString(n)) == MinCount
  {
    var d := DecimalString(n);
    var s := "-" + d;
    assert s[0] == '-' && s[1..] == d;
    assert TrimStart(s) == s;
    assert UnsignedPart(s) == d;
    DigitPrefixOfDigits(d);
  }

  /** Zero sends 1. */
  lemma ClampZeroExample()
    ensures EffectiveCount("0") == 1
  {
    assert DecimalString(0) == "0";
    DecimalCountsClamped(0);
  }

  /** A negative number sends 1: "-5" sends 1. */
  lemma ClampNegativeExample()
    ensures EffectiveCount("-5") == 1
  {
    var s := "-" + DecimalString(5);
    NegativeCountsSendOne(5);
    assert s == "-5";
  }

  /** A number above 20 sends 20: "25" sends 20. */
  lemma ClampAboveExample()
    ensures EffectiveCount("25") == 20
  {
    DecimalCountsClamped(25);
    TwoDigitDecimalString(2, 5);
    assert [DigitChar(2), DigitChar(5)] == "25";
  }

  /** Text that cannot start a number (`parseInt` gives `NaN`) sends 1. */
  lemma NotANumberSendsOne(countText: string)
    requires countText == [] || (&& !IsJsWhitespace(countText[0]) && !IsDigit(countText[0])
                                 && countText[0] != '+' && countText[0] != '-')
    ensures EffectiveCount(countText) == MinCount
  {
    assert TrimStart(countText) == countText;
    assert UnsignedPart(countText) == countText;
  }

  /** The empty field and "abc" both send 1. */
  lemma ClampNotANumberExamples()
    ensures EffectiveCount("") == 1 && EffectiveCount("abc") == 1
  {
    NotANumberSendsOne("");
    NotANumberSendsOne("abc");
  }

  /** Only the leading digits are read: "7abc" sends 7. */
  lemma ClampNumericPrefixExample()
    ensures EffectiveCount("7abc") == 7
  {
    var s := "7abc";
    assert TrimStart(s) == s && UnsignedPart(s) == s;
    assert s[1..] == "abc" && DigitPrefix("abc") == "";
    assert DigitPrefix(s) == "7";
    assert DigitsValue("7") == 7;
  }

  /** A fraction is cut at the point: "3.9" sends 3. */
  lemma ClampFractionExample()
    ensures EffectiveCount("3.9") == 3
  {
    var s := "3.9";
    assert TrimStart(s) == s && UnsignedPart(s) == s;
    assert s[1..] == ".9" && DigitPrefix(".9") == "";
    assert DigitPrefix(s) == "3";
    assert DigitsValue("3") == 3;
  }

  /** The panel's own state: the chosen strategy and the text of the count field. */
  class GeneratorPanel {
    var selectedStrategy: TestStrategy
    var countStr: string

    /** `useState(TestStrategy.SMALL)` and `useState("5")`. */
    constructor()
      ensures selectedStrategy == Small && countStr == DefaultCountText
    {
      selectedStrategy := Small;
      countStr := DefaultCountText;
    }

    /** The strategy picker's `onChange`. */
    method SelectStrategy(strategy: TestStrategy)
      modifies this
      ensures selectedStrategy == strategy && countStr == old(countStr)
    {
      selectedStrategy := strategy;
    }

    /** The count field's `onChange`. */
    method EditCount(text: string)
      modifies this
      ensures countStr == text && selectedStrategy == old(selectedStrategy)
    {
      countStr := text;
    }

    /**
     * `handleGenerateClick`: the selected strategy and the clamped count go to
     * `onGenerate`, and the field is rewritten to the count's decimal text.
     */
    method GenerateClick() returns (strategy: TestStrategy, count: int)
      modifies this
      ensures strategy == old(selectedStrategy)
      ensures count == EffectiveCount(old(countStr))
      ensures MinCount <= count <= MaxCount
      ensures countStr == DecimalString(count) && selectedStrategy == old(selectedStrategy)
    {
      var val := ParseInt(countStr);
      if val.None? || val.value < MinCount {
        val := Some(MinCount);
      }
      if val.value > MaxCount {
        val := Some(MaxCount);
      }
      countStr := DecimalString(val.value);
      strategy, count := selectedStrategy, val.value;
    }
  }

  /** The `Test #` numbers of a list of cases, newest first: `testCases.length - index`. */
  function Labels(cases: seq<TestCase>): (labels: seq<int>)
    ensures |labels| == |cases|
    ensures forall i :: 0 <= i < |labels| ==> 1 <= labels[i] <= |cases|
    ensures cases != [] ==> labels[0] == |cases| && labels[|labels| - 1] == 1
  {
    seq(|cases|, index requires 0 <= index < |cases| => |cases| - index)
  }

  /** The numbers strictly decrease down the list, so no two cases share one. */
  lemma LabelsDistinct(cases: seq<TestCase>)
    ensures forall i, j :: 0 <= i < j < |cases| ==> Labels(cases)[i] > Labels(cases)[j]
  {
  }

  /** Putting a new batch in front does not renumber the cases already shown. */
  lemma LabelsStableUnderPrepend(batch: seq<TestCase>, cases: seq<TestCase>, i: nat)
    requires i < |cases|
    ensures Labels(batch + cases)[|batch| + i] == Labels(cases)[i]
  {
  }
}
