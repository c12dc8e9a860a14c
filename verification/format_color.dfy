/**
 * `formatColor`: a colour object `{r, g, b, a}` with channels in [0, 1]
 * becomes `rgb(R,G,B);`, each of the first three channels multiplied by 255.
 * How a product is printed is left to `show`.
 */
module Colors {
  import opened Json

  /** The printed product of the channel at position `i` and 255. */
  function Scaled(color: Object<real>, i: nat, show: real -> string): string
    requires i < |color|
  {
    show(color[i].1 * 255.0)
  }

  /**
   * The text the `forEach` callback adds for the keys from position `i` on:
   * the first three keys add their scaled value, the first two a comma
   * after it, and later keys nothing.
   */
  function ChannelsFrom(color: Object<real>, i: nat, show: real -> string): string
    requires i <= |color|
    decreases |color| - i
  {
    if i == |color| then ""
    else
      (if i < 3 then Scaled(color, i, show) + (if i < 2 then "," else "") else "")
      + ChannelsFrom(color, i + 1, show)
  }

  /** Keys after the third contribute nothing. */
  lemma {:induction false} ChannelsPastThird(color: Object<real>, i: nat, show: real -> string)
    requires 3 <= i <= |color|
    ensures ChannelsFrom(color, i, show) == ""
    decreases |color| - i
  {
    if i < |color| {
      ChannelsPastThird(color, i + 1, show);
    }
  }

  /** One step of the `forEach`: the text added for the key at position `i` and after. */
  lemma ChannelsStep(color: Object<real>, i: nat, show: real -> string)
    requires i < |color| && i < 3
    ensures ChannelsFrom(color, i, show)
      == Scaled(color, i, show) + (if i < 2 then "," else "") + ChannelsFrom(color, i + 1, show)
  {
  }

  /** With one or two keys, each is followed by a comma. */
  lemma ChannelsOfFewKeys(color: Object<real>, show: real -> string)
    requires 1 <= |color| <= 2
    ensures |color| == 1 ==> ChannelsFrom(color, 0, show) == Scaled(color, 0, show) + ","
    ensures |color| == 2 ==>
      ChannelsFrom(color, 0, show) == Scaled(color, 0, show) + "," + Scaled(color, 1, show) + ","
  {
    ChannelsStep(color, 0, show);
    var s0 := Scaled(color, 0, show);
    if |color| == 1 {
      assert ChannelsFrom(color, 1, show) == "";
      assert s0 + "," + "" == s0 + ",";
    } else {
      ChannelsStep(color, 1, show);
      var s1 := Scaled(color, 1, show);
      assert ChannelsFrom(color, 2, show) == "";
      assert ChannelsFrom(color, 1, show) == s1 + ",";
      assert s0 + "," + (s1 + ",") == s0 + "," + s1 + ",";
    }
  }

  /** With three keys or more, the first three are comma-separated and the rest add nothing. */
  lemma ChannelsOfManyKeys(color: Object<real>, show: real -> string)
    requires |color| >= 3
    ensures ChannelsFrom(color, 0, show)
      == Scaled(color, 0, show) + "," + Scaled(color, 1, show) + "," + Scaled(color, 2, show)
  {
    var s0, s1, s2 := Scaled(color, 0, show), Scaled(color, 1, show), Scaled(color, 2, show);
    ChannelsPastThird(color, 3, show);
    ChannelsStep(color, 2, show);
    assert ChannelsFrom(color, 2, show) == s2 + "" + "" == s2;
    ChannelsStep(color, 1, show);
    ChannelsStep(color, 0, show);
    assert ChannelsFrom(color, 1, show) == s1 + "," + s2;
    assert s0 + "," + (s1 + "," + s2) == s0 + "," + s1 + "," + s2;
  }

  function FormatColor(color: Object<real>, show: real -> string): (r: string)
    ensures |color| == 0 ==> r == "rgb();"
    ensures |color| == 1 ==> r == "rgb(" + Scaled(color, 0, show) + ",);"
    ensures |color| == 2 ==>
      r == "rgb(" + Scaled(color, 0, show) + "," + Scaled(color, 1, show) + ",);"
    ensures |color| >= 3 ==>
      r == "rgb(" + Scaled(color, 0, show) + "," + Scaled(color, 1, show) + ","
             + Scaled(color, 2, show) + ");"
  {
    var channels := ChannelsFrom(color, 0, show);
    if |color| >= 3 then
      ChannelsOfManyKeys(color, show);
      "rgb(" + channels + ");"
    else if |color| >= 1 then
      ChannelsOfFewKeys(color, show);
      "rgb(" + channels + ");"
    else
      "rgb(" + channels + ");"
  }

  /** Only the first three keys matter: an alpha channel, or any fourth key, is ignored. */
  lemma AlphaIgnored(color: Object<real>, extra: Object<real>, show: real -> string)
    requires |color| == 3
    ensures FormatColor(color + extra, show) == FormatColor(color, show)
  {
    assert (color + extra)[0] == color[0];
    assert (color + extra)[1] == color[1];
    assert (color + extra)[2] == color[2];
  }

  /** `{r: 0, g: 0, b: 1, a: 1}` gives `rgb(0,0,255);`. */
  lemma BlueExample()
    ensures FormatColor([("r", 0.0), ("g", 0.0), ("b", 1.0), ("a", 1.0)], IntegralToString)
      == "rgb(0,0,255);"
  {
    var color := [("r", 0.0), ("g", 0.0), ("b", 1.0), ("a", 1.0)];
    assert Scaled(color, 0, IntegralToString) == "0" by {
      assert (0.0 * 255.0).Floor == 0;
      assert NatToString(0) == "0";
    }
    assert Scaled(color, 1, IntegralToString) == "0" by {
      assert (0.0 * 255.0).Floor == 0;
      assert NatToString(0) == "0";
    }
    assert Scaled(color, 2, IntegralToString) == "255" by {
      assert (1.0 * 255.0).Floor == 255;
      assert NatToString(2) == "2";
      assert NatToString(25) == "25";
      assert NatToString(255) == "255";
    }
    assert "rgb(" + "0" + "," + "0" + "," + "255" + ");" == "rgb(0,0,255);";
  }
}
