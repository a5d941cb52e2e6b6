/** Reading the `[theme]` table: a light or dark base theme is chosen, then
    each recognised colour key overrides that one colour. Colours are an
    opaque type `C`; how a colour is named or parsed, the desktop's accent
    colour and the desktop's light or dark preference are parameters. */
module Theme {
  import opened Wrappers

  /** `DefaultTheme`. */
  datatype Base = Light | Dark

  /** A configuration value as the TOML reader hands it over; tables keep
      their keys in document order. */
  datatype TomlValue = TString(s: string) | TTable(items: seq<(string, TomlValue)>) | TOther(kind: string)

  datatype Theme<C> = Theme(background: C, text: C, accent: C, selectedText: C)

  /** What the theme reader takes from its surroundings: the base used when
      none is named, the desktop's accent colour, the colour a CSS colour
      name stands for, and the colour parser applied to configuration
      values. */
  datatype Env<C> = Env(
    defaultBase: Base,
    accent: C,
    fromStr: string -> C,
    parse: TomlValue -> Result<C, string>)

  datatype ThemeError =
    | NotATable
    | BadBase(value: TomlValue)
    | DuplicateField(name: string)
    | BadColour(message: string)

  /** `From<DefaultTheme> for Theme`. */
  function FromBase<C>(b: Base, env: Env<C>): (r: Theme<C>)
    ensures r.accent == env.accent
    ensures b == Light ==> r.background == env.fromStr("white") && r.text == env.fromStr("black")
                           && r.selectedText == env.fromStr("white")
    ensures b == Dark ==> r.background == env.fromStr("#202225") && r.text == env.fromStr("B3B3B3")
                          && r.selectedText == env.fromStr("black")
  {
    match b
    case Light => Theme(env.fromStr("white"), env.fromStr("black"), env.accent, env.fromStr("white"))
    case Dark => Theme(env.fromStr("#202225"), env.fromStr("B3B3B3"), env.accent, env.fromStr("black"))
  }

  /** `Theme::default`. */
  function DefaultTheme<C>(env: Env<C>): Theme<C> {
    FromBase(env.defaultBase, env)
  }

  /** Reading the `base` value: the lower-case names of the two bases. */
  function ParseBase(v: TomlValue): (r: Result<Base, ThemeError>)
    ensures r == Ok(Light) <==> v == TString("light")
    ensures r == Ok(Dark) <==> v == TString("dark")
    ensures r.Err? ==> r.error == BadBase(v)
  {
    if v == TString("light") then Ok(Light)
    else if v == TString("dark") then Ok(Dark)
    else Err(BadBase(v))
  }

  // ---------------------------------------------------------- visit_map

  /** The recognised keys; every other key is `OtherField`. */
  datatype Field = BackgroundColor | TextColor | AccentColor | SelectedTextColor | OtherField

  function FieldName(f: Field): string {
    match f
    case BackgroundColor => "background_color"
    case TextColor => "text_color"
    case AccentColor => "accent_color"
    case SelectedTextColor => "selected_text_color"
    case OtherField => ""
  }

  function FieldOf(key: string): (f: Field)
    ensures f != OtherField ==> FieldName(f) == key
    ensures f == OtherField ==> forall g: Field :: g != OtherField ==> FieldName(g) != key
  {
    if key == "background_color" then BackgroundColor
    else if key == "text_color" then TextColor
    else if key == "accent_color" then AccentColor
    else if key == "selected_text_color" then SelectedTextColor
    else OtherField
  }

  function Get<C>(t: Theme<C>, f: Field): C
    requires f != OtherField
  {
    match f
    case BackgroundColor => t.background
    case TextColor => t.text
    case AccentColor => t.accent
    case SelectedTextColor => t.selectedText
  }

  function Set<C>(t: Theme<C>, f: Field, c: C): (r: Theme<C>)
    requires f != OtherField
    ensures Get(r, f) == c
    ensures forall g :: g != OtherField && g != f ==> Get(r, g) == Get(t, g)
  {
    match f
    case BackgroundColor => t.(background := c)
    case TextColor => t.(text := c)
    case AccentColor => t.(accent := c)
    case SelectedTextColor => t.(selectedText := c)
  }

  /** The loop of `visit_map`: `visited` holds the fields already read. A
      recognised field seen again is a duplicate; its value is read only
      when it is not; other keys are skipped. */
  function Visit<C>(env: Env<C>, t: Theme<C>, visited: set<Field>, items: seq<(string, TomlValue)>): Result<Theme<C>, ThemeError>
    decreases |items|
  {
    if |items| == 0 then Ok(t)
    else
      var f := FieldOf(items[0].0);
      if f == OtherField then Visit(env, t, visited, items[1..])
      else if f in visited then Err(DuplicateField(FieldName(f)))
      else
        match env.parse(items[0].1)
        case Err(m) => Err(BadColour(m))
        case Ok(c) => Visit(env, Set(t, f, c), visited + {f}, items[1..])
  }

  /** `DefaultTheme::visit_map`: the chosen base, overridden field by
      field. */
  function VisitMap<C>(env: Env<C>, b: Base, items: seq<(string, TomlValue)>): Result<Theme<C>, ThemeError> {
    Visit(env, FromBase(b, env), {}, items)
  }

  // -------------------------------------------------------- deserialize

  /** The first value stored under `key`. */
  function Lookup(items: seq<(string, TomlValue)>, key: string): (r: Option<TomlValue>)
    ensures r.Some? <==> exists k :: 0 <= k < |items| && items[k].0 == key
    decreases |items|
  {
    if |items| == 0 then None
    else if items[0].0 == key then Some(items[0].1)
    else Lookup(items[1..], key)
  }

  /** The table without `key`. */
  function Remove(items: seq<(string, TomlValue)>, key: string): (r: seq<(string, TomlValue)>)
    ensures forall k :: 0 <= k < |r| ==> r[k].0 != key
    ensures forall x :: x in items && x.0 != key ==> x in r
    ensures forall x :: x in r ==> x in items
    decreases |items|
  {
    if |items| == 0 then []
    else if items[0].0 == key then Remove(items[1..], key)
    else [items[0]] + Remove(items[1..], key)
  }

  /** `Theme::deserialize`: only a table is accepted; its `base` entry, when
      present, names the base and is taken out before the colours are
      read. */
  function Deserialize<C>(env: Env<C>, v: TomlValue): (r: Result<Theme<C>, ThemeError>)
    ensures !v.TTable? ==> r == Err(NotATable)
    ensures v.TTable? && Lookup(v.items, "base").None? ==>
              r == VisitMap(env, env.defaultBase, v.items)
    ensures v.TTable? && Lookup(v.items, "base").Some? && ParseBase(Lookup(v.items, "base").value).Err? ==>
              r == Err(BadBase(Lookup(v.items, "base").value))
    ensures v.TTable? && Lookup(v.items, "base").Some? && ParseBase(Lookup(v.items, "base").value).Ok? ==>
              r == VisitMap(env, ParseBase(Lookup(v.items, "base").value).value, Remove(v.items, "base"))
  {
    match v
    case TTable(items) =>
      var b := match Lookup(items, "base") case None => Ok(env.defaultBase) case Some(x) => ParseBase(x);
      (match b
       case Err(e) => Err(e)
       case Ok(base) =>
         var rest := if Lookup(items, "base").Some? then Remove(items, "base") else items;
         VisitMap(env, base, rest))
    case _ => Err(NotATable)
  }

  // ------------------------------------------------------------- lemmas

  /** No recognised field appears twice. */
  predicate NoDuplicateFields(items: seq<(string, TomlValue)>) {
    forall p, q :: 0 <= p < q < |items| && FieldOf(items[p].0) != OtherField ==>
      FieldOf(items[p].0) != FieldOf(items[q].0)
  }

  /** Every recognised field holds a readable colour. */
  predicate AllParse<C>(env: Env<C>, items: seq<(string, TomlValue)>) {
    forall k :: 0 <= k < |items| && FieldOf(items[k].0) != OtherField ==> env.parse(items[k].1).Ok?
  }

  predicate NoneVisited(visited: set<Field>, items: seq<(string, TomlValue)>) {
    forall k :: 0 <= k < |items| && FieldOf(items[k].0) != OtherField ==> FieldOf(items[k].0) !in visited
  }

  /** The value read for field `f`: the first entry whose key names it. */
  function FirstFor(items: seq<(string, TomlValue)>, f: Field): (r: Option<TomlValue>)
    ensures r.Some? ==> exists k :: 0 <= k < |items| && FieldOf(items[k].0) == f && items[k].1 == r.value
    decreases |items|
  {
    if |items| == 0 then None
    else if FieldOf(items[0].0) == f then Some(items[0].1)
    else FirstFor(items[1..], f)
  }

  /** The colour a field ends up with: the one read for it, or the one the
      starting theme had. */
  function Expected<C>(env: Env<C>, t: Theme<C>, items: seq<(string, TomlValue)>, f: Field): C
    requires f != OtherField
    requires AllParse(env, items)
  {
    match FirstFor(items, f)
    case None => Get(t, f)
    case Some(v) => env.parse(v).value
  }

  lemma TailKeeps<C>(env: Env<C>, items: seq<(string, TomlValue)>)
    requires |items| > 0
    ensures NoDuplicateFields(items) ==> NoDuplicateFields(items[1..])
    ensures AllParse(env, items) ==> AllParse(env, items[1..])
  {
    assert forall k :: 0 <= k < |items| - 1 ==> items[1..][k] == items[k + 1];
  }

  /** The reading succeeds exactly when no recognised field repeats or was
      already read, and every recognised field holds a readable colour. */
  lemma {:induction false} VisitOkIff<C>(env: Env<C>, t: Theme<C>, visited: set<Field>, items: seq<(string, TomlValue)>)
    ensures Visit(env, t, visited, items).Ok? <==>
              NoDuplicateFields(items) && AllParse(env, items) && NoneVisited(visited, items)
    decreases |items|
  {
    if |items| > 0 {
      var f := FieldOf(items[0].0);
      var tail := items[1..];
      assert forall k :: 0 <= k < |tail| ==> tail[k] == items[k + 1];
      TailKeeps(env, items);
      if f == OtherField {
        VisitOkIff(env, t, visited, tail);
        if NoDuplicateFields(tail) && AllParse(env, tail) && NoneVisited(visited, tail) {
          assert NoDuplicateFields(items);
        }
      } else if f in visited {
        assert !NoneVisited(visited, items);
      } else if env.parse(items[0].1).Err? {
        assert !AllParse(env, items);
      } else {
        var c := env.parse(items[0].1).value;
        VisitOkIff(env, Set(t, f, c), visited + {f}, tail);
        if NoDuplicateFields(items) && AllParse(env, items) && NoneVisited(visited, items) {
          forall k | 0 <= k < |tail| && FieldOf(tail[k].0) != OtherField
            ensures FieldOf(tail[k].0) !in visited + {f}
          {
            assert FieldOf(items[0].0) != FieldOf(items[k + 1].0);
          }
        }
        if NoDuplicateFields(tail) && AllParse(env, tail) && NoneVisited(visited + {f}, tail) {
          forall p, q | 0 <= p < q < |items| && FieldOf(items[p].0) != OtherField
            ensures FieldOf(items[p].0) != FieldOf(items[q].0)
          {
            if p == 0 {
              assert items[q] == tail[q - 1];
              if FieldOf(items[q].0) != OtherField {
                assert FieldOf(tail[q - 1].0) !in visited + {f};
              }
            } else {
              assert items[p] == tail[p - 1] && items[q] == tail[q - 1];
            }
          }
        }
      }
    }
  }

  /** When the reading succeeds, each recognised field holds the colour read
      for it, and a field not given keeps the starting theme's colour. */
  lemma {:induction false} VisitFields<C>(env: Env<C>, t: Theme<C>, visited: set<Field>, items: seq<(string, TomlValue)>, f: Field)
    requires f != OtherField
    requires Visit(env, t, visited, items).Ok?
    ensures AllParse(env, items)
    ensures Get(Visit(env, t, visited, items).value, f) == Expected(env, t, items, f)
    decreases |items|
  {
    VisitOkIff(env, t, visited, items);
    if |items| > 0 {
      var g := FieldOf(items[0].0);
      var tail := items[1..];
      TailKeeps(env, items);
      if g == OtherField {
        VisitFields(env, t, visited, tail, f);
      } else {
        var c := env.parse(items[0].1).value;
        var t1 := Set(t, g, c);
        VisitFields(env, t1, visited + {g}, tail, f);
        if g != f {
          assert Get(t1, f) == Get(t, f);
        } else {
          VisitOkIff(env, t1, visited + {g}, tail);
          FirstForAbsent(tail, f, visited + {g});
        }
      }
    }
  }

  /** A field already read does not appear again in the rest. */
  lemma {:induction false} FirstForAbsent(items: seq<(string, TomlValue)>, f: Field, visited: set<Field>)
    requires f != OtherField && f in visited && NoneVisited(visited, items)
    ensures FirstFor(items, f).None?
    decreases |items|
  {
    if |items| > 0 {
      assert FieldOf(items[0].0) != f;
      assert forall k :: 0 <= k < |items| - 1 ==> items[1..][k] == items[k + 1];
      FirstForAbsent(items[1..], f, visited);
    }
  }

  /** The recognised entries, in order. */
  function Recognised(items: seq<(string, TomlValue)>): (r: seq<(string, TomlValue)>)
    ensures forall k :: 0 <= k < |r| ==> FieldOf(r[k].0) != OtherField
    ensures forall x :: x in r ==> x in items
    decreases |items|
  {
    if |items| == 0 then []
    else if FieldOf(items[0].0) == OtherField then Recognised(items[1..])
    else [items[0]] + Recognised(items[1..])
  }

  /** Unrecognised keys are ignored: reading the recognised entries alone
      gives the same outcome, errors included. */
  lemma {:induction false} UnknownKeysIgnored<C>(env: Env<C>, t: Theme<C>, visited: set<Field>, items: seq<(string, TomlValue)>)
    ensures Visit(env, t, visited, items) == Visit(env, t, visited, Recognised(items))
    decreases |items|
  {
    if |items| > 0 {
      var f := FieldOf(items[0].0);
      var r := Recognised(items);
      if f == OtherField {
        UnknownKeysIgnored(env, t, visited, items[1..]);
      } else {
        assert r[0] == items[0] && r[1..] == Recognised(items[1..]);
        if f !in visited && env.parse(items[0].1).Ok? {
          UnknownKeysIgnored(env, Set(t, f, env.parse(items[0].1).value), visited + {f}, items[1..]);
        }
      }
    }
  }

  /** With all four colours given, the result does not depend on the base. */
  lemma AllFieldsIndependentOfBase<C>(env: Env<C>, b1: Base, b2: Base, items: seq<(string, TomlValue)>)
    requires forall f: Field :: f != OtherField ==> FirstFor(items, f).Some?
    ensures VisitMap(env, b1, items) == VisitMap(env, b2, items)
  {
    VisitOkIff(env, FromBase(b1, env), {}, items);
    VisitOkIff(env, FromBase(b2, env), {}, items);
    if VisitMap(env, b1, items).Ok? {
      var r1 := VisitMap(env, b1, items).value;
      var r2 := VisitMap(env, b2, items).value;
      VisitFields(env, FromBase(b1, env), {}, items, BackgroundColor);
      VisitFields(env, FromBase(b2, env), {}, items, BackgroundColor);
      VisitFields(env, FromBase(b1, env), {}, items, TextColor);
      VisitFields(env, FromBase(b2, env), {}, items, TextColor);
      VisitFields(env, FromBase(b1, env), {}, items, AccentColor);
      VisitFields(env, FromBase(b2, env), {}, items, AccentColor);
      VisitFields(env, FromBase(b1, env), {}, items, SelectedTextColor);
      VisitFields(env, FromBase(b2, env), {}, items, SelectedTextColor);
    } else {
      VisitErrorIndependentOfStart(env, FromBase(b1, env), FromBase(b2, env), {}, items);
    }
  }

  /** An error does not depend on the colours read so far. */
  lemma {:induction false} VisitErrorIndependentOfStart<C>(env: Env<C>, t1: Theme<C>, t2: Theme<C>, visited: set<Field>, items: seq<(string, TomlValue)>)
    requires Visit(env, t1, visited, items).Err?
    ensures Visit(env, t2, visited, items) == Visit(env, t1, visited, items)
    decreases |items|
  {
    var f := FieldOf(items[0].0);
    if f == OtherField {
      VisitErrorIndependentOfStart(env, t1, t2, visited, items[1..]);
    } else if f !in visited && env.parse(items[0].1).Ok? {
      var c := env.parse(items[0].1).value;
      VisitErrorIndependentOfStart(env, Set(t1, f, c), Set(t2, f, c), visited + {f}, items[1..]);
    }
  }

  /** An empty table gives the default theme. */
  lemma EmptyIsDefault<C>(env: Env<C>)
    ensures Deserialize(env, TTable([])) == Ok(DefaultTheme(env))
  {
  }

  /** The examples from the launcher's tests: naming a base gives exactly
      that base, and a base with one colour changes only that colour. */
  lemma BaseExamples<C>(env: Env<C>)
    requires env.parse(TString("purple")) == Ok(env.fromStr("purple"))
    ensures Deserialize(env, TTable([("base", TString("dark"))])) == Ok(FromBase(Dark, env))
    ensures Deserialize(env, TTable([("base", TString("light"))])) == Ok(FromBase(Light, env))
    ensures Deserialize(env, TTable([("base", TString("dark")), ("accent_color", TString("purple"))]))
            == Ok(FromBase(Dark, env).(accent := env.fromStr("purple")))
  {
    var items := [("base", TString("dark")), ("accent_color", TString("purple"))];
    assert Remove(items, "base") == [("accent_color", TString("purple"))] by {
      assert items[1..] == [("accent_color", TString("purple"))];
      assert Remove(items[1..][1..], "base") == [];
    }
    assert FieldOf("accent_color") == AccentColor;
    assert FieldOf("base") == OtherField;
  }

  /** A repeated colour key is refused by name, whatever the base. */
  lemma DuplicateExample<C>(env: Env<C>, v: TomlValue, w: TomlValue)
    requires env.parse(v).Ok?
    ensures VisitMap(env, Dark, [("text_color", v), ("text_color", w)]) == Err(DuplicateField("text_color"))
  {
    var items := [("text_color", v), ("text_color", w)];
    assert FieldOf("text_color") == TextColor;
    assert items[1..] == [("text_color", w)];
    var t1 := Set(FromBase(Dark, env), TextColor, env.parse(v).value);
    assert Visit(env, t1, {TextColor}, items[1..]) == Err(DuplicateField("text_color"));
    assert {} + {TextColor} == {TextColor};
    assert Visit(env, FromBase(Dark, env), {}, items) == Visit(env, t1, {TextColor}, items[1..]);
  }
}
