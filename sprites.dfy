/** The sprite URL a species name is shown with (the same rules in
    `usePokemonMap` and in `PokemonSelector`), and the name-to-URL map the
    hook builds from the species list. */
module Sprites {
  import opened Wrappers
  import opened Strings

  const SpriteBase: string := "https://img.pokemondb.net/sprites/"
  const ScarletVioletDir: string := SpriteBase + "scarlet-violet/normal/"
  const GoDir: string := SpriteBase + "go/normal/"
  const HomeDir: string := SpriteBase + "home/normal/"

  /** The rules, tried in order: Ogerpon's masked forms, plain Ogerpon, Mega
      forms, Gigantamax forms, and every other species. */
  predicate IsOgerponForm(name: string) {
    StartsWith(name, "ogerpon-")
  }

  predicate IsMegaForm(name: string) {
    !IsOgerponForm(name) && name != "ogerpon" && Contains(name, "-mega")
  }

  predicate IsGmaxForm(name: string) {
    !IsOgerponForm(name) && name != "ogerpon" && !Contains(name, "-mega")
    && (Contains(name, "-gmax") || Contains(name, "-gigantamax"))
  }

  predicate IsRegular(name: string) {
    !IsOgerponForm(name) && name != "ogerpon" && !Contains(name, "-mega")
    && !Contains(name, "-gmax") && !Contains(name, "-gigantamax")
  }

  /** A PNG file in one of the sprite directories. */
  function Png(dir: string, stem: string): (url: string)
    requires StartsWith(dir, SpriteBase)
    ensures StartsWith(url, SpriteBase) && EndsWith(url, ".png")
  {
    var url := dir + stem + ".png";
    assert url[..|SpriteBase|] == dir[..|SpriteBase|];
    assert url[|url| - 4..] == ".png";
    url
  }

  lemma DirectoriesUnderBase()
    ensures StartsWith(ScarletVioletDir, SpriteBase)
    ensures StartsWith(GoDir, SpriteBase)
    ensures StartsWith(HomeDir, SpriteBase)
  {
    assert ScarletVioletDir[..|SpriteBase|] == SpriteBase;
    assert GoDir[..|SpriteBase|] == SpriteBase;
    assert HomeDir[..|SpriteBase|] == SpriteBase;
  }

  /** The Mega rule, given the name without its first `-mega`: a remaining
      `-x` or `-y` ending is moved back after `-mega`. */
  function MegaSprite(baseName: string): (url: string)
    ensures StartsWith(url, SpriteBase) && EndsWith(url, ".png")
  {
    DirectoriesUnderBase();
    if EndsWith(baseName, "-x") || EndsWith(baseName, "-y") then
      var form := baseName[|baseName| - 2..];
      var pokemonName := baseName[..|baseName| - 2];
      Png(GoDir, pokemonName + "-mega" + form)
    else
      Png(GoDir, baseName + "-mega")
  }

  /** The Gigantamax rule: a trailing `-gmax`, then a trailing `-gigantamax`,
      is stripped and `-gigantamax` appended. */
  function GmaxSprite(name: string): (url: string)
    ensures StartsWith(url, SpriteBase) && EndsWith(url, ".png")
  {
    DirectoriesUnderBase();
    var baseName := StripSuffix(StripSuffix(name, "-gmax"), "-gigantamax");
    Png(HomeDir, baseName + "-gigantamax")
  }

  /** The sprite URL of a species: always a PNG under the sprite host. */
  function SpriteUrl(name: string): (url: string)
    ensures StartsWith(url, SpriteBase) && EndsWith(url, ".png")
    ensures IsMegaForm(name) ==> url == MegaSprite(ReplaceFirst(name, "-mega", ""))
    ensures IsGmaxForm(name) ==> url == GmaxSprite(name)
  {
    DirectoriesUnderBase();
    if IsOgerponForm(name) then
      var variant := ReplaceFirst(ReplaceFirst(name, "ogerpon-", ""), "-mask", "");
      Png(ScarletVioletDir, "ogerpon-" + variant)
    else if name == "ogerpon" then
      Png(ScarletVioletDir, "ogerpon")
    else if Contains(name, "-mega") then
      MegaSprite(ReplaceFirst(name, "-mega", ""))
    else if Contains(name, "-gmax") || Contains(name, "-gigantamax") then
      GmaxSprite(name)
    else
      Png(HomeDir, name)
  }

  // ---------- the rules one by one ----------

  /** `ogerpon-<rest>` loses its leading `ogerpon-` and its first `-mask`,
      and is drawn from the Scarlet/Violet set. */
  lemma OgerponFormUrl(rest: string)
    ensures SpriteUrl("ogerpon-" + rest)
      == ScarletVioletDir + "ogerpon-" + ReplaceFirst(rest, "-mask", "") + ".png"
  {
    var name := "ogerpon-" + rest;
    assert name[..8] == "ogerpon-";
    ReplaceLeadingOccurrence("ogerpon-", rest);
  }

  /** Plain Ogerpon has its own Scarlet/Violet sprite. */
  lemma OgerponUrl()
    ensures SpriteUrl("ogerpon") == ScarletVioletDir + "ogerpon.png"
  {
    assert !IsOgerponForm("ogerpon");
  }

  /** `-mega` cannot begin inside a name free of it and end inside the
      `-mega` that follows: its only dash is its first character. */
  lemma MegaFirstOccurrence(p: string, rest: string)
    requires !Contains(p, "-mega")
    ensures IndexOf(p + "-mega" + rest, "-mega") == Some(|p|)
  {
    var s := p + "-mega" + rest;
    assert s[|p|..|p| + 5] == "-mega";
    assert OccursAt(s, "-mega", |p|);
    ContainsIff(p, "-mega");
    forall j | 0 <= j < |p| ensures !OccursAt(s, "-mega", j) {
      if j + 5 <= |p| {
        assert s[j..j + 5] == p[j..j + 5];
        assert !OccursAt(p, "-mega", j);
      } else if j + 5 <= |s| {
        assert s[j..j + 5][|p| - j] == s[|p|] == '-';
        assert "-mega"[|p| - j] != '-';
      }
    }
  }

  /** A species name with no `-mega` stays free of it when `-x` or `-y` is
      appended. */
  lemma FormSuffixAddsNoMega(p: string, form: string)
    requires form == "-x" || form == "-y"
    requires !Contains(p, "-mega")
    ensures !Contains(p + form, "-mega")
  {
    var s := p + form;
    ContainsIff(s, "-mega");
    ContainsIff(p, "-mega");
    forall j | 0 <= j ensures !OccursAt(s, "-mega", j) {
      if j + 5 <= |p| {
        assert s[j..j + 5] == p[j..j + 5];
        assert !OccursAt(p, "-mega", j);
      } else if j + 5 <= |s| {
        assert s[j..j + 5][4] == s[j + 4];
        assert s[j + 4] in form;
        assert s[j..j + 5] != "-mega";
      }
    }
  }

  /** After the first `-mega` is removed, a `-x` or `-y` ending goes back
      behind `-mega`; any other remainder gets `-mega` appended. */
  lemma MegaSpriteOfForm(p: string, form: string)
    requires form == "" || form == "-x" || form == "-y"
    requires form == "" ==> !EndsWith(p, "-x") && !EndsWith(p, "-y")
    ensures MegaSprite(p + form) == GoDir + p + "-mega" + form + ".png"
  {
    var b := p + form;
    if form == "" {
      assert b == p;
    } else {
      MegaFormEnding(p, form);
    }
  }

  lemma MegaFormEnding(p: string, form: string)
    requires form == "-x" || form == "-y"
    ensures MegaSprite(p + form) == GoDir + p + "-mega" + form + ".png"
  {
    var b := p + form;
    assert b[|b| - 2..] == form;
    assert EndsWith(b, "-x") || EndsWith(b, "-y");
    assert b[..|b| - 2] == p;
    assert MegaSprite(b) == Png(GoDir, p + "-mega" + form);
  }

  /** The API's own Mega names (`<p>-mega`, `<p>-mega-x`, `<p>-mega-y`) map to
      the Pokemon GO sprite of the same name. */
  lemma MegaUrl(p: string, form: string)
    requires form == "" || form == "-x" || form == "-y"
    requires !Contains(p, "-mega")
    requires form == "" ==> !EndsWith(p, "-x") && !EndsWith(p, "-y")
    requires !IsOgerponForm(p + "-mega" + form)
    ensures SpriteUrl(p + "-mega" + form) == GoDir + p + "-mega" + form + ".png"
  {
    var name := p + "-mega" + form;
    MegaFirstOccurrence(p, form);
    assert name[..|p|] == p && name[|p| + 5..] == form;
    assert ReplaceFirst(name, "-mega", "") == p + form;
    assert name[|p|] == '-';
    assert name != "ogerpon";
    assert IsMegaForm(name);
    MegaSpriteOfForm(p, form);
  }

  /** A form letter written before `-mega` (`charizard-x-mega`) is moved after
      it (`charizard-mega-x`). */
  lemma MegaFormMovesAfterMega(p: string, form: string)
    requires form == "-x" || form == "-y"
    requires !Contains(p, "-mega")
    requires !IsOgerponForm(p + form + "-mega")
    ensures SpriteUrl(p + form + "-mega") == GoDir + p + "-mega" + form + ".png"
  {
    var name := p + form + "-mega";
    FormSuffixAddsNoMega(p, form);
    MegaFirstOccurrence(p + form, "");
    assert name == p + form + "-mega" + "";
    assert name[..|p| + 2] == p + form;
    assert ReplaceFirst(name, "-mega", "") == p + form;
    assert name[|p| + 2] == '-';
    assert name != "ogerpon";
    assert IsMegaForm(name);
    MegaSpriteOfForm(p, form);
  }

  /** A trailing `-gmax` is replaced by `-gigantamax` on the HOME sprite. */
  lemma GmaxUrl(p: string)
    requires !IsOgerponForm(p + "-gmax") && !Contains(p + "-gmax", "-mega")
    requires !EndsWith(p, "-gigantamax")
    ensures SpriteUrl(p + "-gmax") == HomeDir + p + "-gigantamax.png"
  {
    var name := p + "-gmax";
    SuffixIsGmaxForm(p, "-gmax");
    GmaxStripped(p);
    assert GmaxSprite(name) == Png(HomeDir, p + "-gigantamax");
  }

  /** A name ending in a Gigantamax suffix follows the Gigantamax rule
      unless an earlier rule applies. */
  lemma SuffixIsGmaxForm(p: string, suffix: string)
    requires suffix == "-gmax" || suffix == "-gigantamax"
    requires !IsOgerponForm(p + suffix) && !Contains(p + suffix, "-mega")
    ensures IsGmaxForm(p + suffix)
  {
    var name := p + suffix;
    assert OccursAt(name, suffix, |p|);
    ContainsIff(name, suffix);
    assert name[|p|] == '-';
    assert name != "ogerpon";
  }

  lemma GmaxStripped(p: string)
    requires !EndsWith(p, "-gigantamax")
    ensures StripSuffix(StripSuffix(p + "-gmax", "-gmax"), "-gigantamax") == p
  {
    var name := p + "-gmax";
    assert EndsWith(name, "-gmax");
    assert name[..|name| - 5] == p;
  }

  /** A trailing `-gigantamax` is kept on the HOME sprite. */
  lemma GigantamaxUrl(p: string)
    requires !IsOgerponForm(p + "-gigantamax") && !Contains(p + "-gigantamax", "-mega")
    ensures SpriteUrl(p + "-gigantamax") == HomeDir + p + "-gigantamax.png"
  {
    var name := p + "-gigantamax";
    SuffixIsGmaxForm(p, "-gigantamax");
    GigantamaxStripped(p);
    assert GmaxSprite(name) == Png(HomeDir, p + "-gigantamax");
  }

  lemma GigantamaxStripped(p: string)
    ensures StripSuffix(StripSuffix(p + "-gigantamax", "-gmax"), "-gigantamax") == p
  {
    var name := p + "-gigantamax";
    assert name[|name| - 5..] == "tamax";
    assert !EndsWith(name, "-gmax");
    assert EndsWith(name, "-gigantamax");
    assert name[..|name| - 11] == p;
  }

  /** Only a trailing suffix is stripped: a name with `-gmax` or
      `-gigantamax` elsewhere keeps all of it, with `-gigantamax` appended. */
  lemma GmaxInsideKept(name: string)
    requires IsGmaxForm(name)
    requires !EndsWith(name, "-gmax") && !EndsWith(name, "-gigantamax")
    ensures SpriteUrl(name) == HomeDir + name + "-gigantamax.png"
  {
    assert StripSuffix(StripSuffix(name, "-gmax"), "-gigantamax") == name;
    assert GmaxSprite(name) == HomeDir + (name + "-gigantamax") + ".png";
  }

  /** Every other species uses the HOME sprite of its own name. */
  lemma RegularUrl(name: string)
    requires IsRegular(name)
    ensures SpriteUrl(name) == HomeDir + name + ".png"
  {
  }

  /** Distinct regular species get distinct sprites. */
  lemma RegularUrlsDistinct(a: string, b: string)
    requires IsRegular(a) && IsRegular(b) && a != b
    ensures SpriteUrl(a) != SpriteUrl(b)
  {
    var ua := SpriteUrl(a);
    var ub := SpriteUrl(b);
    assert ua[|HomeDir|..|ua| - 4] == a;
    assert ub[|HomeDir|..|ub| - 4] == b;
  }

  // ---------- the map ----------

  /** The `forEach` that fills the map: one key per listed name (a repeated
      name is written again with the same URL), nothing else. */
  method BuildPokemonMap(names: seq<string>) returns (pokemonMap: map<string, string>)
    ensures forall n :: n in pokemonMap <==> n in names
    ensures forall n :: n in pokemonMap ==> pokemonMap[n] == SpriteUrl(n)
  {
    pokemonMap := map[];
    var i := 0;
    while i < |names|
      invariant 0 <= i <= |names|
      invariant forall n :: n in pokemonMap <==> n in names[..i]
      invariant forall n :: n in pokemonMap ==> pokemonMap[n] == SpriteUrl(n)
    {
      var name := names[i];
      var url := SpriteUrl(name);
      assert names[..i + 1] == names[..i] + [name];
      var next := pokemonMap[name := url];
      forall n ensures n in next <==> n in names[..i + 1] {
        assert n in names[..i + 1] <==> n in names[..i] || n == name;
      }
      pokemonMap := next;
      i := i + 1;
    }
    assert names[..i] == names;
  }

  /** The hook's effect: the species list when the request succeeds, an
      empty map when the request or its parsing fails. */
  method LoadPokemonMap(response: Option<seq<string>>) returns (pokemonMap: map<string, string>)
    ensures response.None? ==> pokemonMap == map[]
    ensures response.Some? ==> forall n :: n in pokemonMap <==> n in response.value
    ensures forall n :: n in pokemonMap ==> pokemonMap[n] == SpriteUrl(n)
  {
    pokemonMap := map[];
    if response.Some? {
      pokemonMap := BuildPokemonMap(response.value);
    }
  }
}
