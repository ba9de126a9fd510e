/**
 * The control device list (`controldevicelist`): an insertion-ordered
 * dictionary from device id to its display string "id - name", the way it
 * is keyed, and the "devices" file format it is saved to and loaded from.
 */
module Registry {

  /**
   * A Python dict as a value: `ids` holds the keys in insertion order,
   * `names` maps each key to its value.
   */
  datatype Devices = Devices(ids: seq<string>, names: map<string, string>)

  const Empty := Devices([], map[])

  /** No id occurs twice. */
  ghost predicate Distinct(ids: seq<string>) {
    forall i, j :: 0 <= i < j < |ids| ==> ids[i] != ids[j]
  }

  /** At most one entry per id, and the order lists exactly the keys. */
  ghost predicate Valid(d: Devices) {
    && Distinct(d.ids)
    && (forall id :: id in d.names <==> id in d.ids)
  }

  /** The first space-separated token, as `s.split(" ")[0]`. */
  function FirstToken(s: string): (t: string)
    ensures t <= s && ' ' !in t
    ensures t == s || s[|t|] == ' '
  {
    if s == [] || s[0] == ' ' then [] else [s[0]] + FirstToken(s[1..])
  }

  /** `d[id] = v`: a new id goes last, an existing id keeps its place. */
  function Put(d: Devices, id: string, v: string): Devices {
    if id in d.names then Devices(d.ids, d.names[id := v])
    else Devices(d.ids + [id], d.names[id := v])
  }

  /** The ids with every occurrence of `id` taken out, order kept. */
  function Without(ids: seq<string>, id: string): (r: seq<string>)
    ensures forall x :: x in r <==> x in ids && x != id
  {
    if ids == [] then []
    else if ids[0] == id then Without(ids[1..], id)
    else [ids[0]] + Without(ids[1..], id)
  }

  /** `d.pop(id, None)`. */
  function Remove(d: Devices, id: string): Devices {
    Devices(Without(d.ids, id), d.names - {id})
  }

  /** `d.values()`, in insertion order. */
  function Values(d: Devices): (vs: seq<string>)
    requires Valid(d)
    ensures |vs| == |d.ids|
  {
    seq(|d.ids|, i requires 0 <= i < |d.ids| && Valid(d) => d.names[d.ids[i]])
  }

  /** Put keeps one entry per id, maps `id` to `v` and leaves every other entry alone. */
  lemma PutValid(d: Devices, id: string, v: string)
    requires Valid(d)
    ensures Valid(Put(d, id, v))
    ensures Put(d, id, v).names == d.names[id := v]
    ensures id in d.names ==> Put(d, id, v).ids == d.ids
    ensures id !in d.names ==> Put(d, id, v).ids == d.ids + [id]
  {
  }

  lemma DistinctCons(x: string, r: seq<string>)
    requires x !in r && Distinct(r)
    ensures Distinct([x] + r)
  {
    var q := [x] + r;
    forall i, j | 0 <= i < j < |q| ensures q[i] != q[j] {
      assert q[j] == r[j - 1];
      if i > 0 {
        assert q[i] == r[i - 1];
      }
    }
  }

  lemma DistinctTail(ids: seq<string>)
    requires ids != [] && Distinct(ids)
    ensures Distinct(ids[1..]) && ids[0] !in ids[1..]
  {
    forall k | 0 <= k < |ids[1..]| ensures ids[1..][k] != ids[0] {
      assert ids[1..][k] == ids[k + 1];
    }
  }

  lemma {:induction false} WithoutDistinct(ids: seq<string>, id: string)
    requires Distinct(ids)
    ensures Distinct(Without(ids, id))
  {
    if ids != [] {
      DistinctTail(ids);
      WithoutDistinct(ids[1..], id);
      if ids[0] != id {
        DistinctCons(ids[0], Without(ids[1..], id));
      }
    }
  }

  lemma {:induction false} WithoutAbsent(ids: seq<string>, id: string)
    requires id !in ids
    ensures Without(ids, id) == ids
  {
    if ids != [] {
      WithoutAbsent(ids[1..], id);
      assert ids == [ids[0]] + ids[1..];
    }
  }

  /** Taking a registered id out of distinct ids closes the gap it leaves, order kept. */
  lemma {:induction false} WithoutAt(ids: seq<string>, p: nat)
    requires Distinct(ids) && p < |ids|
    ensures Without(ids, ids[p]) == ids[..p] + ids[p + 1..]
  {
    DistinctTail(ids);
    if p == 0 {
      WithoutAbsent(ids[1..], ids[0]);
    } else {
      var tail := ids[1..];
      assert tail[p - 1] == ids[p];
      WithoutAt(tail, p - 1);
      assert ids[..p] == [ids[0]] + tail[..p - 1];
      assert ids[p + 1..] == tail[p..];
    }
  }

  /**
   * Removing keeps one entry per id, drops exactly `id`, leaves every other
   * value as it was and keeps the remaining ids in their order.
   */
  lemma RemoveValid(d: Devices, id: string)
    requires Valid(d)
    ensures Valid(Remove(d, id))
    ensures Remove(d, id).names == d.names - {id}
    ensures forall p :: 0 <= p < |d.ids| && d.ids[p] == id ==>
      Remove(d, id).ids == d.ids[..p] + d.ids[p + 1..]
  {
    WithoutDistinct(d.ids, id);
    forall p | 0 <= p < |d.ids| && d.ids[p] == id
      ensures Remove(d, id).ids == d.ids[..p] + d.ids[p + 1..]
    {
      WithoutAt(d.ids, p);
    }
  }

  /** Removing an id that is not registered changes nothing. */
  lemma RemoveAbsent(d: Devices, id: string)
    requires Valid(d) && id !in d.names
    ensures Remove(d, id) == d
  {
    WithoutAbsent(d.ids, id);
  }

  /** The text `save_devices` writes: each value followed by a newline. */
  function Serialize(vs: seq<string>): string {
    if vs == [] then "" else vs[0] + "\n" + Serialize(vs[1..])
  }

  /** Appending one value appends one line: the step of the save loop. */
  lemma {:induction false} SerializeSnoc(vs: seq<string>, v: string)
    ensures Serialize(vs + [v]) == Serialize(vs) + v + "\n"
  {
    if vs == [] {
      assert vs + [v] == [v];
    } else {
      assert (vs + [v])[0] == vs[0];
      assert (vs + [v])[1..] == vs[1..] + [v];
      SerializeSnoc(vs[1..], v);
    }
  }

  /** Length of the first line of `s`, its newline included (as `readlines` keeps it). */
  function LineLength(s: string): (n: nat)
    requires s != []
    ensures 0 < n <= |s|
  {
    if s[0] == '\n' || |s| == 1 then 1 else 1 + LineLength(s[1..])
  }

  /** `file.readlines()`: the lines of `s`, each with its newline, the last one possibly without. */
  function Lines(s: string): seq<string>
    decreases |s|
  {
    if s == [] then [] else [s[..LineLength(s)]] + Lines(s[LineLength(s)..])
  }

  /**
   * The text `open(..., "r")` hands to `readlines`: with universal newlines
   * both "\r\n" and a lone '\r' are read as '\n'.
   */
  function UniversalNewlines(s: string): string
    decreases |s|
  {
    if s == [] then []
    else if s[0] == '\r' then "\n" + UniversalNewlines(if |s| > 1 && s[1] == '\n' then s[2..] else s[1..])
    else [s[0]] + UniversalNewlines(s[1..])
  }

  /** Text without '\r' is read as written. */
  lemma {:induction false} UniversalNewlinesPlain(s: string)
    requires '\r' !in s
    ensures UniversalNewlines(s) == s
  {
    if s != [] {
      assert s[0] != '\r' && '\r' !in s[1..];
      UniversalNewlinesPlain(s[1..]);
    }
  }

  /** `line[:-1]`: the line without its last character. */
  function DropLast(line: string): string {
    if line == [] then [] else line[..|line| - 1]
  }

  /** What `populate_list` does to `d` with the lines of the "devices" file. */
  function LoadLines(d: Devices, lines: seq<string>): Devices {
    if lines == [] then d
    else
      var line := lines[|lines| - 1];
      Put(LoadLines(d, lines[..|lines| - 1]), FirstToken(line), DropLast(line))
  }

  /** Each value with its newline: the lines a saved file consists of. */
  function Terminated(vs: seq<string>): (r: seq<string>)
    ensures |r| == |vs|
  {
    seq(|vs|, i requires 0 <= i < |vs| => vs[i] + "\n")
  }

  lemma {:induction false} LineLengthOf(v: string, rest: string)
    requires '\n' !in v
    ensures LineLength(v + "\n" + rest) == |v| + 1
  {
    if v != [] {
      assert (v + "\n" + rest)[1..] == v[1..] + "\n" + rest;
      LineLengthOf(v[1..], rest);
    }
  }

  /** Reading back saved text gives one line per value, newline included. */
  lemma {:induction false} LinesOfSerialize(vs: seq<string>)
    requires forall i :: 0 <= i < |vs| ==> '\n' !in vs[i]
    ensures Lines(Serialize(vs)) == Terminated(vs)
  {
    if vs != [] {
      var head, rest := vs[0] + "\n", Serialize(vs[1..]);
      assert Serialize(vs) == vs[0] + "\n" + rest;
      LineLengthOf(vs[0], rest);
      assert Serialize(vs)[..|head|] == head;
      assert Serialize(vs)[|head|..] == rest;
      LinesOfSerialize(vs[1..]);
      assert Terminated(vs) == [head] + Terminated(vs[1..]);
    }
  }

  /** Values without '\r' are saved as text without '\r'. */
  lemma {:induction false} SerializePlain(vs: seq<string>)
    requires forall i :: 0 <= i < |vs| ==> '\r' !in vs[i]
    ensures '\r' !in Serialize(vs)
  {
    if vs != [] {
      SerializePlain(vs[1..]);
      assert '\r' !in vs[0];
    }
  }

  lemma {:induction false} FirstTokenOfLine(v: string)
    requires ' ' in v
    ensures FirstToken(v + "\n") == FirstToken(v)
  {
    if v[0] != ' ' {
      assert (v + "\n")[1..] == v[1..] + "\n";
      FirstTokenOfLine(v[1..]);
    }
  }

  /**
   * A registry the file format can carry: values hold no line break
   * ('\n' or '\r') and at least one space, and each id is its value's
   * first token.
   */
  ghost predicate Storable(d: Devices) {
    && Valid(d)
    && forall id :: id in d.names ==>
         && '\n' !in d.names[id] && '\r' !in d.names[id]
         && ' ' in d.names[id] && FirstToken(d.names[id]) == id
  }

  lemma SavedLinesAt(d: Devices, j: nat)
    requires Valid(d) && 0 < j <= |d.ids|
    ensures Terminated(Values(d))[..j][..j - 1] == Terminated(Values(d))[..j - 1]
    ensures Terminated(Values(d))[..j][j - 1] == d.names[d.ids[j - 1]] + "\n"
  {
  }

  /** The registry holding the first j entries of `d`. */
  ghost function Prefix(d: Devices, j: nat): Devices
    requires Valid(d) && j <= |d.ids|
  {
    Devices(d.ids[..j], map x | x in d.ids[..j] :: d.names[x])
  }

  /** The first j entries form a registry of their own. */
  lemma PrefixValid(d: Devices, j: nat)
    requires Valid(d) && j <= |d.ids|
    ensures Valid(Prefix(d, j))
    ensures forall k :: j <= k < |d.ids| ==> d.ids[k] !in Prefix(d, j).names
  {
    var init := d.ids[..j];
    forall a, b | 0 <= a < b < |init| ensures init[a] != init[b] {
      assert init[a] == d.ids[a] && init[b] == d.ids[b];
    }
  }

  /** Putting entry j - 1 after the first j - 1 entries gives the first j entries. */
  lemma PrefixStep(d: Devices, j: nat)
    requires Valid(d) && 0 < j <= |d.ids|
    ensures Valid(Prefix(d, j - 1)) && d.ids[j - 1] !in Prefix(d, j - 1).names
    ensures Put(Prefix(d, j - 1), d.ids[j - 1], d.names[d.ids[j - 1]]) == Prefix(d, j)
  {
    PrefixValid(d, j - 1);
    PrefixIds(d, j);
    PrefixNames(d, j);
  }

  lemma PrefixIds(d: Devices, j: nat)
    requires Valid(d) && 0 < j <= |d.ids|
    ensures Prefix(d, j).ids == Prefix(d, j - 1).ids + [d.ids[j - 1]]
  {
    assert d.ids[..j] == d.ids[..j - 1] + [d.ids[j - 1]];
  }

  lemma PrefixNames(d: Devices, j: nat)
    requires Valid(d) && 0 < j <= |d.ids|
    ensures Prefix(d, j).names == Prefix(d, j - 1).names[d.ids[j - 1] := d.names[d.ids[j - 1]]]
  {
    var init, id := d.ids[..j - 1], d.ids[j - 1];
    assert d.ids[..j] == init + [id];
    var full := Prefix(d, j).names;
    var target := Prefix(d, j - 1).names[id := d.names[id]];
    assert full.Keys == target.Keys;
    assert forall x :: x in full ==> full[x] == target[x];
  }

  /** The first j saved lines load into the first j entries. */
  lemma {:induction false} LoadPrefix(d: Devices, j: nat)
    requires Storable(d) && j <= |d.ids|
    ensures LoadLines(Empty, Terminated(Values(d))[..j]) == Prefix(d, j)
  {
    if j > 0 {
      var lines := Terminated(Values(d));
      var id := d.ids[j - 1];
      var v := d.names[id];
      LoadPrefix(d, j - 1);
      SavedLinesAt(d, j);
      PrefixStep(d, j);
      FirstTokenOfLine(v);
      assert DropLast(v + "\n") == v;
    }
  }

  /** All the entries are the registry itself. */
  lemma PrefixAll(d: Devices)
    requires Valid(d)
    ensures Prefix(d, |d.ids|) == d
  {
    assert d.ids[..|d.ids|] == d.ids;
    assert Prefix(d, |d.ids|).names == d.names;
  }

  /** Saved values of a storable registry carry no line break. */
  lemma StorableValues(d: Devices)
    requires Storable(d)
    ensures forall i :: 0 <= i < |Values(d)| ==> '\n' !in Values(d)[i] && '\r' !in Values(d)[i]
  {
    forall i | 0 <= i < |Values(d)| ensures '\n' !in Values(d)[i] && '\r' !in Values(d)[i] {
      assert d.ids[i] in d.names;
    }
  }

  /** Saving then loading into an empty registry reproduces the same ordered map. */
  lemma SaveLoadRoundTrip(d: Devices)
    requires Storable(d)
    ensures LoadLines(Empty, Lines(UniversalNewlines(Serialize(Values(d))))) == d
  {
    var vs := Values(d);
    var lines := Terminated(vs);
    StorableValues(d);
    SerializePlain(vs);
    UniversalNewlinesPlain(Serialize(vs));
    LinesOfSerialize(vs);
    assert Lines(Serialize(vs)) == lines[..|d.ids|];
    LoadPrefix(d, |d.ids|);
    PrefixAll(d);
  }

  /**
   * A value without a space is its own first token, so its saved line
   * "v\n" reloads under the key "v\n" instead of "v".
   */
  lemma SpacelessValueChangesKey()
    ensures LoadLines(Empty, Lines(UniversalNewlines(Serialize(["Lamp"])))) == Devices(["Lamp\n"], map["Lamp\n" := "Lamp"])
  {
    assert Serialize(["Lamp"]) == "Lamp\n";
    UniversalNewlinesPlain("Lamp\n");
    LineLengthOf("Lamp", "");
    assert "Lamp" + "\n" + "" == "Lamp\n";
    assert "Lamp\n"[..5] == "Lamp\n" && "Lamp\n"[5..] == "";
    assert Lines("Lamp\n") == ["Lamp\n"];
    assert FirstToken("Lamp\n") == "Lamp\n";
  }

  lemma {:induction false} LoneReturnRead(v: string, rest: string)
    requires '\r' !in v && (rest == [] || rest[0] != '\n')
    ensures UniversalNewlines(v + "\r" + rest) == v + "\n" + UniversalNewlines(rest)
  {
    if v == [] {
      assert v + "\r" + rest == "\r" + rest;
      assert ("\r" + rest)[1..] == rest;
    } else {
      assert (v + "\r" + rest)[0] == v[0];
      assert (v + "\r" + rest)[1..] == v[1..] + "\r" + rest;
      assert '\r' !in v[1..];
      LoneReturnRead(v[1..], rest);
    }
  }

  /**
   * A value holding a lone '\r' is saved as one line but read back as two,
   * because universal newlines end a line at the '\r'.
   */
  lemma LoneReturnSplitsValue(v: string, w: string)
    requires '\r' !in v && '\n' !in v && '\r' !in w && '\n' !in w && w != []
    ensures Serialize([v + "\r" + w]) == v + "\r" + w + "\n"
    ensures Lines(UniversalNewlines(v + "\r" + w + "\n")) == [v + "\n", w + "\n"]
  {
    assert Serialize([v + "\r" + w]) == v + "\r" + w + "\n" + Serialize([]);
    assert v + "\r" + w + "\n" == v + "\r" + (w + "\n");
    assert (w + "\n")[0] == w[0];
    LoneReturnRead(v, w + "\n");
    UniversalNewlinesPlain(w + "\n");
    assert [v, w][1..] == [w] && [w][1..] == [];
    assert Serialize([v, w]) == v + "\n" + (w + "\n");
    LinesOfSerialize([v, w]);
    assert Terminated([v, w]) == [v + "\n", w + "\n"];
  }
}
