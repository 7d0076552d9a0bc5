/** `styleObjToString`: the text of an inline `style` attribute, built from a
    style object whose entries are visited in order. */
module Style {

  /** A style object as the ordered list of its entries. Every key of the
      page's style objects is a non-index string, so `Object.entries` gives
      them in insertion order. */
  type StyleObj = seq<(string, string)>

  /** The text one entry contributes: `k: v; `. */
  function EntryText(e: (string, string)): (t: string)
    ensures |t| == |e.0| + |e.1| + 4
  {
    e.0 + ": " + e.1 + "; "
  }

  /** The text of a whole style, grown the way the loop grows it: the text of
      all entries but the last, then the last one's. */
  function Serialized(style: StyleObj): string {
    if style == [] then ""
    else Serialized(style[..|style| - 1]) + EntryText(style[|style| - 1])
  }

  /** `styleObjToString`: append each entry's text to `str`, in order. */
  method StyleObjToString(style: StyleObj) returns (str: string)
    ensures str == Serialized(style)
  {
    str := "";
    var i := 0;
    while i < |style|
      invariant 0 <= i <= |style|
      invariant str == Serialized(style[..i])
    {
      assert style[..i + 1][..i] == style[..i];
      str := str + EntryText(style[i]);
      i := i + 1;
    }
    assert style[..|style|] == style;
  }

  /** Serialisation distributes over concatenation of styles: the text is the
      in-order concatenation of the entries' texts. */
  lemma {:induction false} SerializedAppend(a: StyleObj, b: StyleObj)
    ensures Serialized(a + b) == Serialized(a) + Serialized(b)
  {
    if b == [] {
      assert a + b == a;
    } else {
      var b' := b[..|b| - 1];
      assert (a + b)[..|a + b| - 1] == a + b';
      SerializedAppend(a, b');
    }
  }

  /** Read from the front: the first entry's text, then the rest. */
  lemma {:induction false} SerializedCons(e: (string, string), rest: StyleObj)
    ensures Serialized([e] + rest) == EntryText(e) + Serialized(rest)
  {
    SerializedAppend([e], rest);
    assert [e][..0] == [];
  }

  /** The first `i + 1` elements are the first `i` and then element `i`. */
  lemma TakeOneMore<T>(s: seq<T>, i: nat)
    requires i < |s|
    ensures s[..i + 1] == s[..i] + [s[i]]
  {
  }

  /** Appending one entry appends its text. */
  lemma {:induction false} SerializedSnoc(a: StyleObj, e: (string, string))
    ensures Serialized(a + [e]) == Serialized(a) + EntryText(e)
  {
    assert (a + [e])[..|a|] == a;
  }

  /** Entry `i` stands between the text of the entries before it and the
      text of those after it. */
  lemma {:induction false} SerializedAt(style: StyleObj, i: nat)
    requires i < |style|
    ensures Serialized(style) == Serialized(style[..i]) + EntryText(style[i]) + Serialized(style[i + 1..])
  {
    var upTo, after := style[..i + 1], style[i + 1..];
    calc {
      Serialized(style);
      { assert upTo + after == style; }
      Serialized(upTo + after);
      { SerializedAppend(upTo, after); }
      Serialized(upTo) + Serialized(after);
      { TakeOneMore(style, i); SerializedSnoc(style[..i], style[i]); }
      Serialized(style[..i]) + EntryText(style[i]) + Serialized(after);
    }
  }

  /** The sum of the lengths of the entries' texts. */
  function TextLength(style: StyleObj): nat {
    if style == [] then 0 else TextLength(style[..|style| - 1]) + |EntryText(style[|style| - 1])|
  }

  lemma {:induction false} SerializedLength(style: StyleObj)
    ensures |Serialized(style)| == TextLength(style)
    ensures |Serialized(style)| >= 4 * |style|
  {
    if style != [] {
      SerializedLength(style[..|style| - 1]);
    }
  }

  /** The text is empty exactly when the style has no entries. */
  lemma SerializedEmpty(style: StyleObj)
    ensures Serialized(style) == "" <==> style == []
  {
  }

  /** The style `updateSky` gives the canvas: a vertical gradient from the
      first sky colour at 0% to the second at 100%. */
  function SkyStyle(sky1: string, sky2: string): StyleObj {
    [("background", "linear-gradient(0deg, " + sky1 + " 0%, " + sky2 + " 100%)")]
  }

  /** The canvas style text for a pair of sky colours; one entry, so one `k: v; ` unit. */
  lemma SkyStyleText(sky1: string, sky2: string)
    ensures Serialized(SkyStyle(sky1, sky2))
      == "background: linear-gradient(0deg, " + sky1 + " 0%, " + sky2 + " 100%); "
  {
  }
}
