/**
 * BranchQueryMetadata: key/value metadata carried as spans over the whole
 * query text.  A text is a plain string, an immutable spanned text or a
 * mutable (spannable) one; spans are kept in insertion order, which is the
 * order in which getSpans reports them.
 */
module QueryMetadata {
  import opened Wrappers
  import opened JavaText

  /** BranchQuerySource: what produced the query text. */
  datatype QuerySource = Keyboard | Voice | AutoCompleteSource

  /** A metadata key identifies the class of its values. */
  datatype Key = SourceKey | CustomKey(id: nat)

  datatype Value = SourceValue(source: QuerySource) | CustomValue(id: nat, payload: int)

  function KeyOf(v: Value): Key
  {
    match v
    case SourceValue(_) => SourceKey
    case CustomValue(id, _) => CustomKey(id)
  }

  datatype Span = Span(value: Value, start: int, end: int)

  datatype TextKind = PlainString | SpannedText | SpannableText

  datatype Text = Text(chars: String, kind: TextKind, spans: seq<Span>)
  {
    predicate IsSpanned() { kind != PlainString }
    predicate IsSpannable() { kind == SpannableText }
  }

  /** Only spanned texts carry spans. */
  predicate WellFormed(t: Text)
  {
    t.kind == PlainString ==> t.spans == []
  }

  function SpansWithoutKey(spans: seq<Span>, key: Key): (r: seq<Span>)
    ensures |r| <= |spans|
    ensures forall k :: 0 <= k < |r| ==> KeyOf(r[k].value) != key
    ensures forall s :: s in spans && KeyOf(s.value) != key ==> s in r
    ensures forall s :: s in r ==> s in spans
  {
    if |spans| == 0 then []
    else if KeyOf(spans[0].value) == key then SpansWithoutKey(spans[1..], key)
    else [spans[0]] + SpansWithoutKey(spans[1..], key)
  }

  /** The first span value with the given key, in insertion order. */
  function FirstWithKey(spans: seq<Span>, key: Key): (r: Option<Value>)
    ensures r.Some? ==> KeyOf(r.value) == key && exists k :: 0 <= k < |spans| && spans[k].value == r.value
    ensures r.None? <==> forall k :: 0 <= k < |spans| ==> KeyOf(spans[k].value) != key
  {
    if |spans| == 0 then None
    else if KeyOf(spans[0].value) == key then Some(spans[0].value)
    else
      var r := FirstWithKey(spans[1..], key);
      assert forall k :: 1 <= k < |spans| ==> spans[k] == spans[1..][k - 1];
      r
  }

  /** `clear`: a spannable text loses every span of the key; other texts are untouched. */
  function Clear(t: Text, key: Key): (r: Text)
    ensures r.chars == t.chars && r.kind == t.kind
    ensures t.IsSpannable() ==> forall k :: 0 <= k < |r.spans| ==> KeyOf(r.spans[k].value) != key
    ensures t.IsSpannable() ==> forall s :: s in t.spans && KeyOf(s.value) != key ==> s in r.spans
    ensures !t.IsSpannable() ==> r == t
  {
    if t.IsSpannable() then t.(spans := SpansWithoutKey(t.spans, key)) else t
  }

  /** `get`: the first value of the key on a spanned text, otherwise null. */
  function Get(t: Text, key: Key): (r: Option<Value>)
    ensures !t.IsSpanned() ==> r.None?
    ensures r.Some? ==> KeyOf(r.value) == key
  {
    if t.IsSpanned() then FirstWithKey(t.spans, key) else None
  }

  /** The span `set` attaches: the value over the whole text. */
  function WholeSpan(t: Text, v: Value): Span
  {
    Span(v, 0, |t.chars|)
  }

  /**
   * `set` as written: a spannable input is cleared of the key and gets the
   * new span; any other input is copied into a new spannable text (which
   * keeps the spans of a spanned input) and gets the new span.
   */
  function SetAsWritten(t: Text, v: Value): (r: Text)
    ensures r.IsSpannable() && r.chars == t.chars
    ensures |r.spans| > 0 && r.spans[|r.spans| - 1] == Span(v, 0, |t.chars|)
  {
    if t.IsSpannable() then
      var c := Clear(t, KeyOf(v));
      c.(spans := c.spans + [WholeSpan(t, v)])
    else
      Text(t.chars, SpannableText, (if t.IsSpanned() then t.spans else []) + [WholeSpan(t, v)])
  }

  /**
   * `set` with the copy of a non-spannable input also cleared of the key:
   * every input then ends with exactly one value of the key.
   */
  function Set(t: Text, v: Value): (r: Text)
    ensures r.IsSpannable() && r.chars == t.chars
    ensures Get(r, KeyOf(v)) == Some(v)
    ensures forall k :: 0 <= k < |r.spans| && KeyOf(r.spans[k].value) == KeyOf(v) ==> r.spans[k] == Span(v, 0, |t.chars|)
    ensures forall s :: s in t.spans && t.IsSpanned() && KeyOf(s.value) != KeyOf(v) ==> s in r.spans
  {
    var kept := if t.IsSpanned() then SpansWithoutKey(t.spans, KeyOf(v)) else [];
    var r := Text(t.chars, SpannableText, kept + [WholeSpan(t, v)]);
    assert FirstWithKey(kept, KeyOf(v)).None?;
    FirstWithKeyAppend(kept, [WholeSpan(t, v)], KeyOf(v));
    r
  }

  lemma {:induction false} FirstWithKeyAppend(a: seq<Span>, b: seq<Span>, key: Key)
    requires FirstWithKey(a, key).None?
    ensures FirstWithKey(a + b, key) == FirstWithKey(b, key)
    decreases |a|
  {
    if |a| > 0 {
      assert (a + b)[1..] == a[1..] + b;
      FirstWithKeyAppend(a[1..], b, key);
    } else {
      assert a + b == b;
    }
  }

  /** On a spannable or plain input the code as written already behaves like `Set`. */
  lemma {:induction false} SetAsWrittenAgreesOnSpannableOrPlain(t: Text, v: Value)
    requires t.IsSpannable() || t.kind == PlainString
    ensures Get(SetAsWritten(t, v), KeyOf(v)) == Some(v)
    ensures t.IsSpannable() ==> SetAsWritten(t, v) == Set(t, v)
  {
    if t.IsSpannable() {
      assert SetAsWritten(t, v) == Set(t, v);
    } else {
      assert SetAsWritten(t, v).spans == [] + [WholeSpan(t, v)];
    }
  }

  /**
   * A spanned but not spannable text that already holds a value of the key
   * keeps it first after `set` as written, so `get` reads the old value.
   */
  lemma SetAsWrittenLosesNewValue()
    ensures var t := Text("abc", SpannedText, [Span(SourceValue(Voice), 0, 3)]);
            Get(SetAsWritten(t, SourceValue(Keyboard)), SourceKey) == Some(SourceValue(Voice))
  {
    var t := Text("abc", SpannedText, [Span(SourceValue(Voice), 0, 3)]);
    assert SetAsWritten(t, SourceValue(Keyboard)).spans == [Span(SourceValue(Voice), 0, 3), Span(SourceValue(Keyboard), 0, 3)];
  }

  /** `set` on a spannable text leaves exactly one span of the key, the new one, last. */
  lemma SetLeavesOneValuePerKey(t: Text, v: Value)
    requires t.IsSpannable()
    ensures var r := SetAsWritten(t, v);
            forall k :: 0 <= k < |r.spans| - 1 ==> KeyOf(r.spans[k].value) != KeyOf(v)
  {
  }

  /** The source recorded on a text, as the controller reads it. */
  function SourceOf(t: Text): (r: Option<QuerySource>)
    ensures r.Some? ==> Get(t, SourceKey) == Some(SourceValue(r.value))
    ensures r.None? ==> Get(t, SourceKey).None?
  {
    match Get(t, SourceKey)
    case Some(SourceValue(s)) => Some(s)
    case _ => None
  }
}
