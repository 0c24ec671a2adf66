/**
 * The contact avatar colour: a palette read once per process from the
 * resources, with the fallback colour for entries that are not colours,
 * and a colour chosen by the text's hash.
 */
module Palette {
  import opened Wrappers
  import opened JavaText

  /**
   * The constructor: the static palette is filled on the first
   * construction only, entry by entry, with the fallback for an entry that
   * does not resolve to a colour.  Later constructions keep it.
   */
  function Load(cache: Option<seq<int>>, entries: seq<Option<int>>, fallback: int): (r: seq<int>)
    ensures cache.Some? ==> r == cache.value
    ensures cache.None? ==> |r| == |entries|
    ensures cache.None? ==> forall i :: 0 <= i < |r| ==> (entries[i].Some? ==> r[i] == entries[i].value) && (entries[i].None? ==> r[i] == fallback)
  {
    if cache.Some? then cache.value
    else seq(|entries|, i requires 0 <= i < |entries| => entries[i].GetOr(fallback))
  }

  /** Once loaded, the palette never changes, whatever later resources say. */
  lemma LoadOnce(entries: seq<Option<int>>, fallback: int, later: seq<Option<int>>, laterFallback: int)
    ensures var first := Load(None, entries, fallback);
            Load(Some(first), later, laterFallback) == first
  {
  }

  /**
   * `pickColor` as written: Math.abs of the hash, Java's remainder by the
   * palette length, then the array read.  A zero length throws on the
   * remainder; a negative index throws on the read.
   */
  function PickAsWritten(colors: seq<int>, text: String): (r: Outcome<int>)
    ensures |colors| == 0 ==> r == Thrown(Arithmetic)
    ensures |colors| > 0 && StringHash(text) != MIN_INT ==>
              var h := StringHash(text);
              r == Ok(colors[(if h < 0 then -h else h) % |colors|])
  {
    if |colors| == 0 then Thrown(Arithmetic)
    else
      var index := JavaRem(JavaAbs(StringHash(text)), |colors|);
      if index < 0 then Thrown(ArrayIndexOutOfBounds) else Ok(colors[index])
  }

  /**
   * The one hash Math.abs cannot negate: whenever the palette length does
   * not divide 2^31, the index is negative and the read throws.
   */
  lemma MinValueHashThrows(colors: seq<int>, text: String)
    requires StringHash(text) == MIN_INT && |colors| > 0 && TWO_32 / 2 % |colors| != 0
    ensures PickAsWritten(colors, text) == Thrown(ArrayIndexOutOfBounds)
  {
    var r := JavaRem(MIN_INT, |colors|);
    assert r == -((TWO_32 / 2) % |colors|);
  }

  /** One step of the hash loop, on a known hash of the prefix. */
  lemma HashStep(p: String, c: char, h: int)
    requires StringHash(p) == h
    ensures StringHash(p + [c]) == Wrap32(31 * h + c as int)
  {
    assert (p + [c])[..|p|] == p;
  }

  lemma HashPolyge(p: String)
    requires StringHash(p) == 0
    ensures StringHash(p + "polyge") == -982654550
  {
    var q := p;
    HashStep(q, 'p', 0); q := q + ['p'];
    HashStep(q, 'o', 112); q := q + ['o'];
    HashStep(q, 'l', 3583); q := q + ['l'];
    HashStep(q, 'y', 111181); q := q + ['y'];
    HashStep(q, 'g', 3446732); q := q + ['g'];
    HashStep(q, 'e', 106848795); q := q + ['e'];
    assert q == p + "polyge";
  }

  lemma HashNelubr(p: String)
    requires StringHash(p) == -982654550
    ensures StringHash(p + "nelubr") == 2082189306
  {
    var q := p;
    HashStep(q, 'n', -982654550); q := q + ['n'];
    HashStep(q, 'e', -397519868); q := q + ['e'];
    HashStep(q, 'l', 561786081); q := q + ['l'];
    HashStep(q, 'u', 235499435); q := q + ['u'];
    HashStep(q, 'b', -1289451990); q := q + ['b'];
    HashStep(q, 'r', -1318305928); q := q + ['r'];
    assert q == p + "nelubr";
  }

  lemma HashIcants(p: String)
    requires StringHash(p) == 2082189306
    ensures StringHash(p + "icants") == -2147483648
  {
    var q := p;
    HashStep(q, 'i', 2082189306); q := q + ['i'];
    HashStep(q, 'c', 123359151); q := q + ['c'];
    HashStep(q, 'a', -470833516); q := q + ['a'];
    HashStep(q, 'n', -1710937011); q := q + ['n'];
    HashStep(q, 't', -1499439679); q := q + ['t'];
    HashStep(q, 's', 762010323); q := q + ['s'];
    assert q == p + "icants";
  }

  /** The witness text: its hash is Integer.MIN_VALUE. */
  lemma WitnessHash()
    ensures StringHash("polygenelubricants") == MIN_INT
  {
    HashPolyge([]);
    assert [] + "polyge" == "polyge";
    HashNelubr("polyge");
    assert "polyge" + "nelubr" == "polygenelubr";
    HashIcants("polygenelubr");
    assert "polygenelubr" + "icants" == "polygenelubricants";
  }

  /** A text with that hash, so a three-colour palette throws on it. */
  lemma MinValueHashExample()
    ensures PickAsWritten([1, 2, 3], "polygenelubricants") == Thrown(ArrayIndexOutOfBounds)
  {
    WitnessHash();
    MinValueHashThrows([1, 2, 3], "polygenelubricants");
  }

  /**
   * The evidently intended pick: the index is the exact magnitude of the
   * hash modulo the length, so every text gets a palette colour.
   */
  function Pick(colors: seq<int>, text: String): (r: Outcome<int>)
    ensures |colors| == 0 <==> r == Thrown(Arithmetic)
    ensures |colors| > 0 ==> r.Ok? && r.value in colors
  {
    if |colors| == 0 then Thrown(Arithmetic)
    else
      var h := StringHash(text);
      Ok(colors[(if h < 0 then -h else h) % |colors|])
  }

  /** The correction changes nothing except on the one hash that made the original throw. */
  lemma PickAgreesWithAsWritten(colors: seq<int>, text: String)
    ensures StringHash(text) != MIN_INT ==> Pick(colors, text) == PickAsWritten(colors, text)
    ensures StringHash(text) == MIN_INT && |colors| > 0 ==> Pick(colors, text).Ok?
  {
  }

  /** The pick depends on the text only through its hash: equal hashes, equal colours. */
  lemma PickByHash(colors: seq<int>, a: String, b: String)
    requires StringHash(a) == StringHash(b)
    ensures Pick(colors, a) == Pick(colors, b)
  {
  }
}
