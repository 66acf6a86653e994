/// The option string of a legacy overlay mount (src/overlayfs/overlayfs.rs), and
/// the way the kernel takes it apart again.
module MountOptions {
  import opened Wrappers

  predicate Special(c: char) {
    c == '\\' || c == ',' || c == ':'
  }

  function Escaped(value: string): string {
    if value == "" then ""
    else (if Special(value[0]) then ['\\', value[0]] else [value[0]]) + Escaped(value[1..])
  }

  /** `escape_mount_option_value`. */
  method EscapeMountOptionValue(value: string) returns (escaped: string)
    ensures escaped == Escaped(value)
    ensures Unescaped(escaped) == value
  {
    escaped := "";
    for i := 0 to |value|
      invariant escaped + Escaped(value[i..]) == Escaped(value)
    {
      ghost var before := escaped;
      if Special(value[i]) { escaped := escaped + ['\\']; }
      escaped := escaped + [value[i]];
      assert value[i..][0] == value[i] && value[i..][1..] == value[i+1..];
      assert before + Escaped(value[i..]) == escaped + Escaped(value[i+1..]);
    }
    assert value[|value|..] == "" && escaped + "" == escaped;
    UnescapeEscaped(value);
  }

  // --- What the kernel reads ----------------------------------------------

  /** Cut a string at the separators no backslash stands before; `current` is the
      part read so far. */
  function Split(s: string, separator: char, current: string): seq<string>
    decreases |s|
  {
    if s == "" then [current]
    else if s[0] == '\\' && |s| > 1 then Split(s[2..], separator, current + s[..2])
    else if s[0] == separator then [current] + Split(s[1..], separator, "")
    else Split(s[1..], separator, current + [s[0]])
  }

  function Unescaped(s: string): string
    decreases |s|
  {
    if s == "" then ""
    else if s[0] == '\\' && |s| > 1 then [s[1]] + Unescaped(s[2..])
    else [s[0]] + Unescaped(s[1..])
  }

  function UnescapedAll(parts: seq<string>): seq<string> {
    if parts == [] then [] else [Unescaped(parts[0])] + UnescapedAll(parts[1..])
  }

  lemma {:induction false} UnescapeEscaped(value: string)
    ensures Unescaped(Escaped(value)) == value
  {
    if value != "" {
      UnescapeEscaped(value[1..]);
      var e, rest := Escaped(value), Escaped(value[1..]);
      if Special(value[0]) { assert e[2..] == rest; } else { assert e[1..] == rest; }
    }
  }

  lemma SplitEscape(c: char, rest: string, separator: char, current: string)
    ensures Split(['\\', c] + rest, separator, current) == Split(rest, separator, current + ['\\', c])
  {
    var s := ['\\', c] + rest;
    assert s[..2] == ['\\', c] && s[2..] == rest;
  }

  lemma SplitPlain(c: char, rest: string, separator: char, current: string)
    requires c != '\\' && c != separator
    ensures Split([c] + rest, separator, current) == Split(rest, separator, current + [c])
  {
    var s := [c] + rest;
    assert s[1..] == rest;
  }

  /** An escaped value is read through to its end: it holds no separator. */
  lemma {:induction false} SplitThrough(value: string, rest: string, separator: char, current: string)
    requires separator == ',' || separator == ':'
    ensures Split(Escaped(value) + rest, separator, current) == Split(rest, separator, current + Escaped(value))
    decreases |value|
  {
    hide Split;
    if value == "" {
      assert "" + rest == rest && current + "" == current;
    } else {
      var c, tail := value[0], Escaped(value[1..]);
      var front := if Special(c) then ['\\', c] else [c];
      assert Escaped(value) + rest == front + (tail + rest);
      if Special(c) {
        SplitEscape(c, tail + rest, separator, current);
      } else {
        SplitPlain(c, tail + rest, separator, current);
      }
      SplitThrough(value[1..], rest, separator, current + front);
      assert current + front + tail == current + Escaped(value);
    }
  }

  // --- Layers -------------------------------------------------------------

  /** The escaped layers, joined with colons. */
  function Lowerdir(layers: seq<string>): string
    requires layers != []
  {
    if |layers| == 1 then Escaped(layers[0]) else Escaped(layers[0]) + ":" + Lowerdir(layers[1..])
  }

  function EscapedAll(layers: seq<string>): seq<string> {
    if layers == [] then [] else [Escaped(layers[0])] + EscapedAll(layers[1..])
  }

  lemma {:induction false} SplitLayers(layers: seq<string>)
    requires layers != []
    ensures Split(Lowerdir(layers), ':', "") == EscapedAll(layers)
  {
    var first := Escaped(layers[0]);
    assert "" + first == first;
    if |layers| == 1 {
      SplitThrough(layers[0], "", ':', "");
      assert first + "" == first;
      assert Split("", ':', first) == [first];
      assert EscapedAll(layers[1..]) == [];
    } else {
      var rest := ":" + Lowerdir(layers[1..]);
      assert Lowerdir(layers) == first + rest;
      SplitThrough(layers[0], rest, ':', "");
      assert rest[1..] == Lowerdir(layers[1..]);
      SplitLayers(layers[1..]);
    }
  }

  lemma {:induction false} UnescapeAll(layers: seq<string>)
    ensures UnescapedAll(EscapedAll(layers)) == layers
  {
    if layers != [] {
      UnescapeEscaped(layers[0]);
      UnescapeAll(layers[1..]);
      assert EscapedAll(layers)[1..] == EscapedAll(layers[1..]);
    }
  }

  /** Whatever characters the layer paths have, the kernel reads back the same list. */
  lemma LowerdirRoundTrip(layers: seq<string>)
    requires layers != []
    ensures UnescapedAll(Split(Lowerdir(layers), ':', "")) == layers
  {
    SplitLayers(layers);
    UnescapeAll(layers);
  }

  lemma {:induction false} SplitThroughLowerdir(layers: seq<string>, rest: string, current: string)
    requires layers != []
    ensures Split(Lowerdir(layers) + rest, ',', current) == Split(rest, ',', current + Lowerdir(layers))
    decreases |layers|
  {
    if |layers| == 1 {
      SplitThrough(layers[0], rest, ',', current);
    } else {
      var first, more := Escaped(layers[0]), Lowerdir(layers[1..]);
      assert Lowerdir(layers) + rest == first + (":" + (more + rest));
      SplitThrough(layers[0], ":" + (more + rest), ',', current);
      assert (":" + (more + rest))[1..] == more + rest;
      SplitThroughLowerdir(layers[1..], rest, current + first + [':']);
      assert current + first + [':'] + more == current + Lowerdir(layers);
    }
  }

  // --- The whole option string --------------------------------------------

  /** The mount data; the writable pair is there only if both directories are. */
  function MountData(layers: seq<string>, upper: Option<string>, work: Option<string>): string
    requires layers != []
  {
    "lowerdir=" + Lowerdir(layers)
    + (if upper.Some? && work.Some? then ",upperdir=" + Escaped(upper.value) + ",workdir=" + Escaped(work.value)
       else "")
  }

  predicate NothingSpecial(s: string) {
    forall i :: 0 <= i < |s| ==> !Special(s[i])
  }

  lemma {:induction false} SplitThroughPlain(s: string, rest: string, separator: char, current: string)
    requires NothingSpecial(s) && (separator == ',' || separator == ':')
    ensures Split(s + rest, separator, current) == Split(rest, separator, current + s)
    decreases |s|
  {
    if s == "" {
      assert s + rest == rest && current + s == current;
    } else {
      assert (s + rest)[1..] == s[1..] + rest;
      SplitThroughPlain(s[1..], rest, separator, current + [s[0]]);
      assert current + [s[0]] + s[1..] == current + s;
    }
  }

  lemma SplitOption(name: string, value: string, rest: string)
    requires NothingSpecial(name)
    ensures Split(name + Escaped(value) + rest, ',', "") == Split(rest, ',', name + Escaped(value))
  {
    assert name + Escaped(value) + rest == name + (Escaped(value) + rest);
    SplitThroughPlain(name, Escaped(value) + rest, ',', "");
    assert "" + name == name;
    SplitThrough(value, rest, ',', name);
  }

  /** The options that are meant. */
  function Options(layers: seq<string>, upper: Option<string>, work: Option<string>): seq<string>
    requires layers != []
  {
    ["lowerdir=" + Lowerdir(layers)]
    + (if upper.Some? && work.Some? then ["upperdir=" + Escaped(upper.value), "workdir=" + Escaped(work.value)] else [])
  }

  lemma SplitPair(upper: string, work: string, first: string)
    ensures Split(",upperdir=" + Escaped(upper) + ",workdir=" + Escaped(work), ',', first) ==
            [first, "upperdir=" + Escaped(upper), "workdir=" + Escaped(work)]
  {
    var u, w := "upperdir=" + Escaped(upper), "workdir=" + Escaped(work);
    var tail := ",upperdir=" + Escaped(upper) + ",workdir=" + Escaped(work);
    assert ",upperdir=" == "," + "upperdir=" && ",workdir=" == "," + "workdir=";
    assert tail[1..] == u + ("," + w);
    SplitOption("upperdir=", upper, "," + w);
    assert ("," + w)[1..] == w;
    SplitOption("workdir=", work, "");
    assert w + "" == w;
  }

  lemma SplitLowerdir(layers: seq<string>, tail: string)
    requires layers != []
    ensures Split("lowerdir=" + Lowerdir(layers) + tail, ',', "") == Split(tail, ',', "lowerdir=" + Lowerdir(layers))
  {
    var name, low := "lowerdir=", Lowerdir(layers);
    assert name + low + tail == name + (low + tail);
    SplitThroughPlain(name, low + tail, ',', "");
    assert "" + name == name;
    SplitThroughLowerdir(layers, tail, name);
  }

  /** The kernel cuts the data into exactly the options that were meant. */
  lemma MountDataSplits(layers: seq<string>, upper: Option<string>, work: Option<string>)
    requires layers != []
    ensures Split(MountData(layers, upper, work), ',', "") == Options(layers, upper, work)
  {
    var first := "lowerdir=" + Lowerdir(layers);
    if upper.Some? && work.Some? {
      SplitLowerdir(layers, ",upperdir=" + Escaped(upper.value) + ",workdir=" + Escaped(work.value));
      SplitPair(upper.value, work.value, first);
    } else {
      SplitLowerdir(layers, "");
      assert first + "" == first;
    }
  }

  /** Build the data for the legacy mount. */
  method BuildMountData(layers: seq<string>, upper: Option<string>, work: Option<string>) returns (data: string)
    requires layers != []
    ensures data == MountData(layers, upper, work)
  {
    var i := |layers| - 1;
    var lower := EscapeMountOptionValue(layers[i]);
    assert layers[i..] == [layers[i]];
    while i > 0
      invariant 0 <= i < |layers| && lower == Lowerdir(layers[i..])
    {
      i := i - 1;
      var layer := EscapeMountOptionValue(layers[i]);
      assert layers[i..][1..] == layers[i+1..];
      lower := layer + ":" + lower;
    }
    assert layers[0..] == layers;
    data := "lowerdir=" + lower;
    if upper.Some? && work.Some? {
      var u := EscapeMountOptionValue(upper.value);
      var w := EscapeMountOptionValue(work.value);
      data := data + ",upperdir=" + u + ",workdir=" + w;
    }
  }
}
