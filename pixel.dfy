/** The corrective write instruction and the JSON body it is sent as. */
module PixelRecord {
  import opened Wrappers

  /** A pixel to write: its canvas coordinate and the pattern's colour string. */
  datatype Pixel = Pixel(x: int, y: int, color: string)

  /** The JSON values a set_pixel body holds. */
  datatype Json = JInt(i: int) | JString(s: string)

  /** Pixel.to_dict: the set_pixel request body. */
  function ToDict(p: Pixel): (d: map<string, Json>)
    ensures d.Keys == {"x", "y", "rgb"}
  {
    map["x" := JInt(p.x), "y" := JInt(p.y), "rgb" := JString(p.color)]
  }

  /** How the server reads a set_pixel body back: exactly the three fields, of the right kinds. */
  function FromDict(d: map<string, Json>): (r: Option<Pixel>)
  {
    if d.Keys == {"x", "y", "rgb"} && d["x"].JInt? && d["y"].JInt? && d["rgb"].JString?
    then Some(Pixel(d["x"].i, d["y"].i, d["rgb"].s))
    else None
  }

  /** The request body carries the whole pixel: reading it back gives that pixel. */
  lemma DictRoundTrip(p: Pixel)
    ensures FromDict(ToDict(p)) == Some(p)
  {
    var d := ToDict(p);
    assert d["x"] == JInt(p.x) && d["y"] == JInt(p.y) && d["rgb"] == JString(p.color);
  }

  /** Every body the server accepts is the body of the pixel it reads from it. */
  lemma {:induction false} DictOfFromDict(d: map<string, Json>, p: Pixel)
    requires FromDict(d) == Some(p)
    ensures ToDict(p) == d
  {
    var e := ToDict(p);
    assert e.Keys == d.Keys;
    forall k | k in d ensures e[k] == d[k] {
      assert k == "x" || k == "y" || k == "rgb";
    }
  }
}
