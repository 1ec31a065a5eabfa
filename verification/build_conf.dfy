/** `buildConf` (app/phalcon/modules/cli/tasks/BuildTask.php:268-289): the
    configuration the dist build ships is the dist defaults, overlaid with
    the project's dist settings, overlaid with the locale configuration whose
    `supported` entry is replaced by the locales the application supports.
    The three documents are merged with `array_replace_recursive` and the
    result is written as YAML. */
module ConfigMerge {
  import opened Outcomes
  import opened PhpArray
  import opened Effects

  /** The parsed documents the stage reads: `dist_defaults.yml`, `dist.yml`,
      the locale `config.yml`, and the supported-locales array the locale
      service reports. */
  datatype ConfInputs = ConfInputs(defaults: seq<Entry>, dist: seq<Entry>, localeConfig: seq<Entry>, supported: seq<Entry>)

  const LocaleKey := StrKey("locale")
  const SupportedKey := StrKey("supported")

  /** Every document is a PHP array proper: unique keys at every level. */
  ghost predicate WellFormedInputs(c: ConfInputs)
  {
    && WellFormed(Arr(c.defaults))
    && WellFormed(Arr(c.dist))
    && WellFormed(Arr(c.localeConfig))
    && WellFormed(Arr(c.supported))
  }

  /** The value at a path of keys inside a nested array, if every step exists. */
  function At(v: Value, path: seq<Key>): Option<Value>
    decreases |path|
  {
    if path == [] then Some(v)
    else if v.Scalar? then None
    else match Lookup(v.entries, path[0])
      case None => None
      case Some(w) => At(w, path[1..])
  }

  /** Two steps down: the entry `k2` of the array under `k1`. */
  lemma {:induction false} AtTwo(v: Value, k1: Key, k2: Key)
    ensures At(v, [k1, k2])
            == if v.Arr? && Lookup(v.entries, k1).Some? && Lookup(v.entries, k1).value.Arr?
               then Lookup(Lookup(v.entries, k1).value.entries, k2) else None
  {
    if v.Arr? {
      match Lookup(v.entries, k1)
      case None =>
      case Some(w) =>
        assert [k1, k2][0] == k1 && [k1, k2][1..] == [k2];
        assert At(v, [k1, k2]) == At(w, [k2]);
        if w.Arr? {
          assert [k2][0] == k2 && [k2][1..] == [];
          match Lookup(w.entries, k2)
          case None =>
          case Some(x) => assert At(w, [k2]) == At(x, []);
        }
    }
  }

  /** The third document: the locale configuration, with `supported` set to
      the supported locales, under the single key `locale`. */
  function LocaleOverlay(localeConfig: seq<Entry>, supported: seq<Entry>): (c3: seq<Entry>)
    ensures KeysOf(c3) == [LocaleKey]
    ensures At(Arr(c3), [LocaleKey, SupportedKey]) == Some(Arr(supported))
    ensures forall k :: k != SupportedKey ==> At(Arr(c3), [LocaleKey, k]) == Lookup(localeConfig, k)
  {
    var c3 := [Entry(LocaleKey, Arr(Put(localeConfig, SupportedKey, Arr(supported))))];
    assert Lookup(c3, LocaleKey) == Some(c3[0].val);
    AtTwo(Arr(c3), LocaleKey, SupportedKey);
    assert forall k :: At(Arr(c3), [LocaleKey, k]) == Lookup(Put(localeConfig, SupportedKey, Arr(supported)), k) by {
      forall k
        ensures At(Arr(c3), [LocaleKey, k]) == Lookup(Put(localeConfig, SupportedKey, Arr(supported)), k)
      {
        AtTwo(Arr(c3), LocaleKey, k);
      }
    }
    c3
  }

  /** The defaults and the dist settings merged, before the locale layer. */
  function Layered(c: ConfInputs): seq<Entry>
  {
    Replace(c.defaults, c.dist)
  }

  /** `array_replace_recursive($config1, $config2, $config3)`. The three
      documents are applied one after the other: the dist settings over the
      defaults, then the locale document over that. */
  function MergedConfig(c: ConfInputs): (merged: seq<Entry>)
    ensures merged == Replace(Layered(c), LocaleOverlay(c.localeConfig, c.supported))
  {
    var c3 := LocaleOverlay(c.localeConfig, c.supported);
    ReplaceAllSnoc(c.defaults, [c.dist], c3);
    assert [c.dist] + [c3] == [c.dist, c3];
    ReplaceAllSnoc(c.defaults, [], c.dist);
    assert [] + [c.dist] == [c.dist];
    ReplaceAll(c.defaults, [c.dist, c3])
  }

  /** The stage writes one YAML document, to `etc/config.yml` below the dist
      directory: the locale document merged over the dist settings merged
      over the defaults. It cannot fail in this model. */
  function BuildConf(distDir: string, c: ConfInputs): (r: StageResult)
    ensures r.outcome == Completed
    ensures |r.actions| == 1 && r.actions[0].EmitYaml? && r.actions[0].path == distDir + "/etc/config.yml"
    ensures r.actions[0].doc == Replace(Replace(c.defaults, c.dist), LocaleOverlay(c.localeConfig, c.supported))
  {
    StageResult([EmitYaml(distDir + "/etc/config.yml", MergedConfig(c))], Completed)
  }

  // ---------------------------------------------------------------------
  // The layers

  /** A top-level key other than `locale` that the dist settings do not
      mention keeps its default, absent defaults staying absent. */
  lemma MergeKeepsDefaults(c: ConfInputs, k: Key)
    requires WellFormedInputs(c)
    requires k != LocaleKey && k !in KeysOf(c.dist)
    ensures Lookup(MergedConfig(c), k) == Lookup(c.defaults, k)
  {
    ReplaceLookup(Layered(c), LocaleOverlay(c.localeConfig, c.supported), k);
    ReplaceLookup(c.defaults, c.dist, k);
  }

  /** A top-level key other than `locale` set by the dist settings takes
      their value, merged into the default when both are arrays. */
  lemma MergeOverridesDefaults(c: ConfInputs, k: Key)
    requires WellFormedInputs(c)
    requires k != LocaleKey && k in KeysOf(c.dist)
    ensures var d := Lookup(c.defaults, k);
            var o := Lookup(c.dist, k).value;
            Lookup(MergedConfig(c), k)
            == if d.Some? && d.value.Arr? && o.Arr? then Some(Arr(Replace(d.value.entries, o.entries))) else Some(o)
  {
    ReplaceLookup(Layered(c), LocaleOverlay(c.localeConfig, c.supported), k);
    ReplaceLookup(c.defaults, c.dist, k);
  }

  /** The keys of the merged document: those of the defaults, then those the
      dist settings add, then `locale` if neither had it. */
  lemma MergedKeys(c: ConfInputs)
    requires WellFormedInputs(c)
    ensures KeysOf(MergedConfig(c))
            == KeysOf(c.defaults) + Fresh(KeysOf(c.dist), KeysOf(c.defaults))
               + Fresh([LocaleKey], KeysOf(c.defaults) + Fresh(KeysOf(c.dist), KeysOf(c.defaults)))
  {
    ReplaceKeys(c.defaults, c.dist);
    ReplaceKeys(Layered(c), LocaleOverlay(c.localeConfig, c.supported));
  }

  // ---------------------------------------------------------------------
  // The locale section

  /** The `locale` array the first two documents leave, if any. */
  function PriorLocale(c: ConfInputs): seq<Entry>
  {
    match Lookup(Layered(c), LocaleKey)
    case Some(Arr(es)) => es
    case _ => []
  }

  /** The merged `locale` entry is an array: the earlier locale array (if
      there was one) merged with the locale configuration carrying the
      supported locales. */
  lemma {:induction false} MergedLocale(c: ConfInputs)
    requires WellFormedInputs(c)
    ensures Lookup(MergedConfig(c), LocaleKey)
            == Some(Arr(Replace(PriorLocale(c), Put(c.localeConfig, SupportedKey, Arr(c.supported)))))
  {
    var c3 := LocaleOverlay(c.localeConfig, c.supported);
    var lc := Put(c.localeConfig, SupportedKey, Arr(c.supported));
    assert Lookup(c3, LocaleKey) == Some(Arr(lc));
    ReplaceLookup(Layered(c), c3, LocaleKey);
    PutWellFormed(c.localeConfig, SupportedKey, Arr(c.supported));
    match Lookup(Layered(c), LocaleKey)
    case Some(Arr(_)) =>
    case _ =>
      ReplaceOntoEmpty(lc);
  }

  /** The merged `locale.supported`: the earlier `locale.supported` array
      merged with the supported locales when there was one, and the
      supported locales themselves otherwise. */
  lemma {:induction false} MergedSupported(c: ConfInputs)
    requires WellFormedInputs(c)
    ensures var ps := Lookup(PriorLocale(c), SupportedKey);
            At(Arr(MergedConfig(c)), [LocaleKey, SupportedKey])
            == if ps.Some? && ps.value.Arr? then Some(Arr(Replace(ps.value.entries, c.supported)))
               else Some(Arr(c.supported))
  {
    var lc := Put(c.localeConfig, SupportedKey, Arr(c.supported));
    MergedLocale(c);
    PutWellFormed(c.localeConfig, SupportedKey, Arr(c.supported));
    ReplaceLookup(PriorLocale(c), lc, SupportedKey);
    AtTwo(Arr(MergedConfig(c)), LocaleKey, SupportedKey);
  }

  /** The merged `locale.supported` holds every supported locale with the
      value the locale service gave it (scalar values, as the service
      reports `true`); when no earlier layer had a `locale.supported` array
      it is exactly the supported locales. */
  lemma SupportedLocalesReachMerged(c: ConfInputs)
    requires WellFormedInputs(c)
    ensures var s := At(Arr(MergedConfig(c)), [LocaleKey, SupportedKey]);
            && s.Some? && s.value.Arr?
            && (forall k :: k in KeysOf(c.supported) && Lookup(c.supported, k).value.Scalar?
                  ==> Lookup(s.value.entries, k) == Lookup(c.supported, k))
            && (Lookup(PriorLocale(c), SupportedKey).None? ==> s == Some(Arr(c.supported)))
  {
    MergedSupported(c);
    var ps := Lookup(PriorLocale(c), SupportedKey);
    if ps.Some? && ps.value.Arr? {
      forall k | k in KeysOf(c.supported) && Lookup(c.supported, k).value.Scalar?
        ensures Lookup(Replace(ps.value.entries, c.supported), k) == Lookup(c.supported, k)
      {
        ReplaceLookup(ps.value.entries, c.supported, k);
      }
    }
  }

  /** Locales an earlier layer listed as supported and the locale service no
      longer reports stay in the merged `locale.supported`, because both
      sides are arrays and are merged rather than replaced. */
  lemma SupportedKeepsEarlierLocales(c: ConfInputs, k: Key)
    requires WellFormedInputs(c)
    requires Lookup(PriorLocale(c), SupportedKey).Some? && Lookup(PriorLocale(c), SupportedKey).value.Arr?
    requires k !in KeysOf(c.supported)
    ensures var s := At(Arr(MergedConfig(c)), [LocaleKey, SupportedKey]);
            s.Some? && s.value.Arr?
            && Lookup(s.value.entries, k) == Lookup(Lookup(PriorLocale(c), SupportedKey).value.entries, k)
  {
    MergedSupported(c);
    ReplaceLookup(Lookup(PriorLocale(c), SupportedKey).value.entries, c.supported, k);
  }

  /** A concrete instance: defaults listing en_US and fr_FR as supported,
      and a locale service reporting only en_US, ship a configuration that
      still lists fr_FR. */
  lemma StaleLocaleShipped()
    ensures var t := Scalar(Bool(true));
            var c := ConfInputs(
              [Entry(LocaleKey, Arr([Entry(SupportedKey, Arr([Entry(StrKey("en_US"), t), Entry(StrKey("fr_FR"), t)]))]))],
              [], [], [Entry(StrKey("en_US"), t)]);
            At(Arr(MergedConfig(c)), [LocaleKey, SupportedKey, StrKey("fr_FR")]) == Some(t)
  {
    var t := Scalar(Bool(true));
    var prior := [Entry(SupportedKey, Arr([Entry(StrKey("en_US"), t), Entry(StrKey("fr_FR"), t)]))];
    var c := ConfInputs([Entry(LocaleKey, Arr(prior))], [], [], [Entry(StrKey("en_US"), t)]);
    ReplaceEmptyOverlay(c.defaults);
    assert Lookup(Layered(c), LocaleKey) == Some(Arr(prior));
    assert WellFormed(Arr(prior[0].val.entries)) by {
      assert KeysOf(prior[0].val.entries) == [StrKey("en_US"), StrKey("fr_FR")];
    }
    assert WellFormedInputs(c) by {
      assert WellFormed(Arr([])) by {
        assert KeysOf([]) == [];
      }
      assert KeysOf(c.defaults) == [LocaleKey];
      assert WellFormed(Arr(c.supported)) by {
        assert KeysOf(c.supported) == [StrKey("en_US")];
        assert forall i :: 0 <= i < |c.supported| ==> c.supported[i].val == t;
      }
    }
    SupportedKeepsEarlierLocales(c, StrKey("fr_FR"));
    var s := At(Arr(MergedConfig(c)), [LocaleKey, SupportedKey]);
    assert At(Arr(MergedConfig(c)), [LocaleKey, SupportedKey, StrKey("fr_FR")])
        == At(s.value, [StrKey("fr_FR")]) by {
      AtAppend(Arr(MergedConfig(c)), [LocaleKey, SupportedKey], [StrKey("fr_FR")]);
    }
  }

  /** Following a path in two parts is following the whole path. */
  lemma {:induction false} AtAppend(v: Value, p: seq<Key>, q: seq<Key>)
    ensures At(v, p + q) == match At(v, p) case None => None case Some(w) => At(w, q)
    decreases |p|
  {
    if p == [] {
      assert p + q == q;
    } else if v.Arr? {
      assert (p + q)[0] == p[0] && (p + q)[1..] == p[1..] + q;
      match Lookup(v.entries, p[0])
      case None =>
      case Some(w) => AtAppend(w, p[1..], q);
    }
  }
}
