/** The `Nomossa` scanner wrapper: the command-line options it passes to
    `nomossa`, the configuration string it records, and the scanner details. */
module Nomossa {
  import opened KotlinStrings
  import opened KotlinCollections
  import opened OrtModel

  /** The plugin configuration fields the wrapper reads. */
  datatype NomossaConfig = NomossaConfig(
    additionalOptions: seq<string>,
    cpuCount: int
  )

  /** The options added after the configured ones, in this order. */
  function FixedOptions(cpuCount: int): seq<string> {
    ["-J", "-l", "-n", IntToString(cpuCount)]
  }

  /** `getCommandLineOptions()`: a `LinkedHashSet` of the additional options, then
      `-J`, `-l`, `-n` and the CPU count added one by one. The list is the
      configured options without repeats, in first-occurrence order, followed by
      those of the four fixed options that were not among them. */
  function GetCommandLineOptions(config: NomossaConfig): (r: seq<string>)
    ensures r == LinkedHashSetOf(config.additionalOptions + FixedOptions(config.cpuCount))
    ensures LinkedHashSetOf(config.additionalOptions) <= r
    ensures NoDuplicates(r)
    ensures forall o :: o in r <==> o in config.additionalOptions || o in FixedOptions(config.cpuCount)
    ensures forall o :: o in FixedOptions(config.cpuCount) ==> multiset(r)[o] == 1
    ensures |r| <= |Elements(config.additionalOptions)| + 4
  {
    var base := LinkedHashSetOf(config.additionalOptions);
    var fixed := FixedOptions(config.cpuCount);
    var r := Add(Add(Add(Add(base, "-J"), "-l"), "-n"), IntToString(config.cpuCount));
    AddAllOfFour(base, fixed);
    LinkedSetWithFixed(config.additionalOptions, fixed);
    LinkedHashSetOfAppend(config.additionalOptions, fixed);
    r
  }

  /** Facts about the configured options' set with the fixed options added. */
  lemma LinkedSetWithFixed(options: seq<string>, fixed: seq<string>)
    ensures var r := AddAll(LinkedHashSetOf(options), fixed);
            && LinkedHashSetOf(options) <= r
            && (forall o :: o in r <==> o in options || o in fixed)
            && (forall o :: o in fixed ==> multiset(r)[o] == 1)
            && |r| <= |Elements(options)| + |fixed|
  {
    var base := LinkedHashSetOf(options);
    AddAllMembers(base, fixed);
    LinkedHashSetOfMembers(options);
    NoDuplicatesSize(base);
  }

  lemma AddAllOfFour(base: seq<string>, fixed: seq<string>)
    requires NoDuplicates(base) && |fixed| == 4
    ensures AddAll(base, fixed) == Add(Add(Add(Add(base, fixed[0]), fixed[1]), fixed[2]), fixed[3])
  {
    assert fixed == [fixed[0], fixed[1], fixed[2], fixed[3]];
    AddAllFour(base, fixed[0], fixed[1], fixed[2], fixed[3]);
  }

  /** `configuration` (and the `configuration` of `parseDetails`): the additional
      options joined with single spaces, empty when there are none. Options
      without spaces can be read back by splitting at the spaces;
      `ConfigurationAppend` fixes the string for every list of options. */
  function Configuration(config: NomossaConfig): (r: string)
    ensures |config.additionalOptions| == 0 ==> r == ""
    ensures SplittableAtSpaces(config.additionalOptions) ==> Split(r, ' ') == config.additionalOptions
  {
    var r := JoinToString(config.additionalOptions, " ");
    if SplittableAtSpaces(config.additionalOptions) then
      SplitJoin(config.additionalOptions, ' ');
      r
    else r
  }

  /** One more option adds a space and the option to the string (the first
      option alone is the whole string), whatever the options contain. */
  lemma ConfigurationAppend(options: seq<string>, option: string, cpuCount: int)
    ensures var r := Configuration(NomossaConfig(options + [option], cpuCount));
            && (|options| == 0 ==> r == option)
            && (|options| > 0 ==> r == Configuration(NomossaConfig(options, cpuCount)) + " " + option)
  {
    JoinSnoc(options, option, " ");
  }

  /** At least one option, and none containing a space. */
  predicate SplittableAtSpaces(options: seq<string>) {
    |options| > 0 && forall k :: 0 <= k < |options| ==> ' ' !in options[k]
  }

  /** `parseDetails(result)`: the plugin id, the scanner version and the same
      configuration string as `configuration`. */
  function ParseDetails(pluginId: string, version: string, config: NomossaConfig): (r: ScannerDetails)
    ensures r.name == pluginId && r.version == version
    ensures r.configuration == Configuration(config)
  {
    ScannerDetails(pluginId, version, JoinToString(config.additionalOptions, " "))
  }

  /** With no configured options the command line is exactly the four fixed ones. */
  lemma NoAdditionalOptions(cpuCount: int)
    ensures GetCommandLineOptions(NomossaConfig([], cpuCount)) == FixedOptions(cpuCount)
  {
    var count := IntToString(cpuCount);
    CountIsNotAFlag(cpuCount);
    assert LinkedHashSetOf<string>([]) == [];
    var s1 := Add([], "-J");
    assert s1 == ["-J"];
    var s2 := Add(s1, "-l");
    assert s2 == ["-J", "-l"];
    var s3 := Add(s2, "-n");
    assert s3 == ["-J", "-l", "-n"];
    assert count !in s3;
    assert Add(s3, count) == ["-J", "-l", "-n", count];
  }

  /** The CPU count's decimal text is never one of the three flags. */
  lemma CountIsNotAFlag(cpuCount: int)
    ensures IntToString(cpuCount) !in ["-J", "-l", "-n"]
  {
    IntToStringRoundTrip(cpuCount);
    var t := IntToString(cpuCount);
    if cpuCount < 0 {
      assert t[1..] == NatToString(-cpuCount);
      assert AllDigits(t[1..]);
      assert IsDigit(t[1]);
    } else {
      assert t[0] != '-';
    }
  }

  /** The options form a set, so a value given twice is kept only where it first
      occurs: the second `1` is dropped and `-y` is followed by `-J`. */
  lemma RepeatedValueDropped(options: seq<string>)
    requires options == ["-x", "1", "-y", "1"]
    ensures GetCommandLineOptions(NomossaConfig(options, 4)) == ["-x", "1", "-y", "-J", "-l", "-n", "4"]
  {
    var base := LinkedHashSetOf(options);
    RepeatedValueSet(options);
    FourIsCount();
    OptionsFromSet(NomossaConfig(options, 4));
    AppendFixed(base, "4");
    RepeatedValueLine(base);
  }

  /** The expected line spelled out, kept apart from the command-line facts. */
  lemma RepeatedValueLine(base: seq<string>)
    requires base == ["-x", "1", "-y"]
    ensures base + ["-J", "-l", "-n", "4"] == ["-x", "1", "-y", "-J", "-l", "-n", "4"]
  {
  }

  lemma RepeatedValueSet(options: seq<string>)
    requires options == ["-x", "1", "-y", "1"]
    ensures LinkedHashSetOf(options) == ["-x", "1", "-y"]
    ensures forall o :: o in LinkedHashSetOf(options) ==> o != "-J" && o != "-l" && o != "-n" && o != "4"
  {
    AddAllFour<string>([], "-x", "1", "-y", "1");
    var s1 := Add([], "-x");
    assert s1 == ["-x"];
    var s2 := Add(s1, "1");
    assert s2 == ["-x", "1"];
    var s3 := Add(s2, "-y");
    assert s3 == ["-x", "1", "-y"];
    assert Add(s3, "1") == s3;
  }

  lemma FourIsCount()
    ensures IntToString(4) == "4"
  {
  }

  /** The command line is the configured set with the fixed options added in turn. */
  lemma OptionsFromSet(config: NomossaConfig)
    ensures GetCommandLineOptions(config)
            == Add(Add(Add(Add(LinkedHashSetOf(config.additionalOptions), "-J"), "-l"), "-n"), IntToString(config.cpuCount))
  {
  }

  /** A configured `-n 8` keeps its place; the fixed `-n` is then skipped and the
      CPU count follows `-l` without a flag of its own. */
  lemma ConfiguredCountFlag(options: seq<string>)
    requires options == ["-n", "8"]
    ensures GetCommandLineOptions(NomossaConfig(options, 4)) == ["-n", "8", "-J", "-l", "4"]
  {
    var base := LinkedHashSetOf(options);
    ConfiguredCountSet(options);
    assert base[0] == "-n";
    FourIsCount();
    OptionsFromSet(NomossaConfig(options, 4));
    AppendFixedAfterCountFlag(base, "4");
    assert GetCommandLineOptions(NomossaConfig(options, 4)) == base + ["-J", "-l", "4"];
    CountFlagLine(base);
  }

  lemma ConfiguredCountSet(options: seq<string>)
    requires options == ["-n", "8"]
    ensures LinkedHashSetOf(options) == ["-n", "8"]
    ensures forall o :: o in LinkedHashSetOf(options) ==> o != "-J" && o != "-l" && o != "4"
  {
    AddAllCons<string>([], "-n", ["8"]);
    AddAllCons<string>(["-n"], "8", []);
    assert options == ["-n"] + ["8"];
    assert Add<string>([], "-n") == ["-n"];
    assert Add(["-n"], "8") == ["-n", "8"];
  }

  /** The fixed options after a set that holds none of them and not the count. */
  lemma AppendFixed(base: seq<string>, count: string)
    requires NoDuplicates(base)
    requires forall o :: o in base ==> o != "-J" && o != "-l" && o != "-n" && o != count
    requires count != "-J" && count != "-l" && count != "-n"
    ensures Add(Add(Add(Add(base, "-J"), "-l"), "-n"), count) == base + ["-J", "-l", "-n", count]
  {
    var s1 := Add(base, "-J");
    assert s1 == base + ["-J"];
    var s2 := Add(s1, "-l");
    assert s2 == base + ["-J", "-l"];
    var s3 := Add(s2, "-n");
    assert s3 == base + ["-J", "-l", "-n"];
    assert count !in s3;
  }

  /** The fixed options after a set that already holds `-n` but none of the others. */
  lemma AppendFixedAfterCountFlag(base: seq<string>, count: string)
    requires NoDuplicates(base) && "-n" in base
    requires forall o :: o in base ==> o != "-J" && o != "-l" && o != count
    requires count != "-J" && count != "-l" && count != "-n"
    ensures Add(Add(Add(Add(base, "-J"), "-l"), "-n"), count) == base + ["-J", "-l", count]
  {
    var s1 := Add(base, "-J");
    assert s1 == base + ["-J"];
    var s2 := Add(s1, "-l");
    assert s2 == base + ["-J", "-l"];
    assert Add(s2, "-n") == s2;
    assert count !in s2;
  }

  /** The expected line spelled out, kept apart from the command-line facts. */
  lemma CountFlagLine(base: seq<string>)
    requires base == ["-n", "8"]
    ensures base + ["-J", "-l", "4"] == ["-n", "8", "-J", "-l", "4"]
  {
  }
}
