/**
 * `parse_cp_features`: a CellProfiler feature name such as
 * `Cells_Texture_SumEntropy_ER_3_01_256` split into compartment, feature
 * group, feature type and channel. Channel names that contain "_" are
 * protected by a placeholder token while the name is split on "_".
 */
module ParseCpFeatures {
  import opened Wrappers
  import opened Seqs
  import opened Strings

  /** The `feature` argument: a string, or a value of another Python type. */
  datatype FeatureArg = FeatureText(text: string) | FeatureOther(typeName: string)

  /** The `channels` argument: a list of strings, or a value of another Python type. */
  datatype ChannelsArg = ChannelList(names: seq<string>) | ChannelsOther(typeName: string)

  /** The returned dictionary. */
  datatype Parsed = Parsed(feature: string, compartment: string, featureGroup: string, featureType: string,
                           channel: string)

  const DefaultChannels: seq<string> := ["DNA", "RNA", "AGP", "Mito", "ER", "mito_tubeness"]
  const Token: string := "XUNIQUEX"
  const Unknown: string := "XUNKNOWN"
  const NotApplicable: string := "XNONE"
  const IndexOutOfRange: string := "list index out of range"

  const Compartments: seq<string> := ["Cells", "Cytoplasm", "Nuclei", "Image"]
  /** Groups whose third token is the feature type and that have no channel. */
  const ShapeGroups: seq<string> := ["AreaShape", "Neighbors", "Children", "Parent", "Number", "Threshold", "ObjectSkeleton"]
  const IntensityGroups: seq<string> := ["Intensity", "ImageQuality"]
  const TextureGroups: seq<string> := ["Texture", "RadialDistribution"]

  // ------------------------------------------------------------- tokenising

  /** A channel name with each "_" replaced by the placeholder. */
  function TokenizeChannel(c: string): string
  {
    Replace(c, "_", Token)
  }

  /** The feature after the loop over `channels`: each channel's occurrences replaced by its tokenised form. */
  function Tokenized(feature: string, channels: seq<string>): string
    decreases |channels|
  {
    if channels == [] then feature
    else
      var c := channels[|channels| - 1];
      Replace(Tokenized(feature, channels[..|channels| - 1]), c, TokenizeChannel(c))
  }

  /** The tokenising loop. */
  method TokenizeFeature(feature: string, channels: seq<string>) returns (t: string)
    ensures t == Tokenized(feature, channels)
  {
    t := feature;
    for i := 0 to |channels|
      invariant t == Tokenized(feature, channels[..i])
    {
      assert channels[..i + 1][..i] == channels[..i];
      var tokenizedChannel := Replace(channels[i], "_", Token);
      t := Replace(t, channels[i], tokenizedChannel);
    }
    assert channels[..|channels|] == channels;
  }

  /** The "_"-tokens of the tokenised feature. */
  function Parts(feature: string, channels: seq<string>): (r: seq<string>)
    ensures |r| >= 1
  {
    Split(Tokenized(feature, channels), "_")
  }

  // ----------------------------------------------------------- the channel

  /** `channel_standardizer` on each "_"-piece: "Orig" removed. */
  function Standardize(channel: string): string
  {
    var pieces := Split(channel, "_");
    Join(seq(|pieces|, i requires 0 <= i < |pieces| => Replace(pieces[i], "Orig", "")), "_")
  }

  /** The reported channel: standardised, then the placeholder turned back into "_". */
  function FinalChannel(channel: string): string
  {
    Replace(Standardize(channel), Token, "_")
  }

  // -------------------------------------------------------------- the parse

  /** The channel a rule picks: a token, or one of the two sentinels. */
  datatype Channel = ChannelToken(token: string) | NoChannel | UnknownChannel

  /** Compartment, group, type and channel before the channel is standardised. */
  datatype Fields = Fields(compartment: string, group: string, featureType: string, channel: Channel)

  function FieldsOf(parts: seq<string>): Result<Fields>
    requires |parts| >= 1
  {
    if |parts| < 2 then Raise(IndexError, IndexOutOfRange)
    else if parts[0] !in Compartments then Ok(Fields(Unknown, Unknown, Unknown, UnknownChannel))
    else
      var compartment, group := parts[0], parts[1];
      if group in ShapeGroups then
        if |parts| < 3 then Raise(IndexError, IndexOutOfRange)
        else Ok(Fields(compartment, group, parts[2], NoChannel))
      else if group == "Location" then
        if |parts| < 3 then Raise(IndexError, IndexOutOfRange)
        else if parts[2] == "Center" then Ok(Fields(compartment, group, parts[2], NoChannel))
        else if |parts| < 5 then Raise(IndexError, IndexOutOfRange)
        else Ok(Fields(compartment, group, parts[2], ChannelToken(parts[4])))
      else if group == "Count" then Ok(Fields(compartment, group, NotApplicable, NoChannel))
      else if group == "Granularity" then
        if |parts| < 4 then Raise(IndexError, IndexOutOfRange)
        else Ok(Fields(compartment, group, NotApplicable, ChannelToken(parts[3])))
      else if group in IntensityGroups then
        if |parts| < 4 then Raise(IndexError, IndexOutOfRange)
        else Ok(Fields(compartment, group, parts[2], ChannelToken(parts[3])))
      else if group == "Correlation" then
        if |parts| < 5 then Raise(IndexError, IndexOutOfRange)
        else Ok(Fields(compartment, group, parts[2], ChannelToken(Join(Sort([parts[3], parts[4]]), "_"))))
      else if group in TextureGroups then
        if |parts| < 4 then Raise(IndexError, IndexOutOfRange)
        else Ok(Fields(compartment, group, parts[2], ChannelToken(parts[3])))
      else Ok(Fields(compartment, group, Unknown, UnknownChannel))
  }

  /**
   * The reported channel. The sentinels "XNONE" and "XUNKNOWN" pass through
   * the standardiser unchanged (`NotApplicableReported`, `UnknownReported`),
   * so they are reported directly.
   */
  function Reported(c: Channel): string
  {
    match c
    case ChannelToken(t) => FinalChannel(t)
    case NoChannel => NotApplicable
    case UnknownChannel => Unknown
  }

  /** The dictionary for the tokens `parts` of `feature`. */
  function FromParts(feature: string, parts: seq<string>): (r: Result<Parsed>)
    requires |parts| >= 1
    ensures r.Ok? ==> r.value.feature == feature
    ensures |parts| < 2 ==> r == Err(Error(IndexError, IndexOutOfRange))
  {
    var fields := FieldsOf(parts);
    if fields.Err? then Err(fields.error)
    else
      var f := fields.value;
      Ok(Parsed(feature, f.compartment, f.group, f.featureType, Reported(f.channel)))
  }

  /** `parse_cp_features(feature, channels)`. */
  function ParseCpFeatures(feature: FeatureArg, channels: ChannelsArg): (r: Result<Parsed>)
    ensures feature.FeatureOther? ==> r == Err(Error(ValueError, "Expected a string, got " + feature.typeName))
    ensures feature.FeatureText? && channels.ChannelsOther? ==>
      r == Err(Error(ValueError, "Expected a list, got " + channels.typeName))
    ensures r.Ok? ==> feature.FeatureText? && channels.ChannelList? && r.value.feature == feature.text
    ensures feature.FeatureText? && channels.ChannelList? && |Parts(feature.text, channels.names)| < 2 ==>
      r == Err(Error(IndexError, IndexOutOfRange))
  {
    if feature.FeatureOther? then Raise(ValueError, "Expected a string, got " + feature.typeName)
    else if channels.ChannelsOther? then Raise(ValueError, "Expected a list, got " + channels.typeName)
    else FromParts(feature.text, Parts(feature.text, channels.names))
  }

  /** The function itself: the type checks, the tokenising loop, then the token rules. */
  method ParseFeature(feature: FeatureArg, channels: ChannelsArg) returns (r: Result<Parsed>)
    ensures r == ParseCpFeatures(feature, channels)
  {
    if feature.FeatureOther? {
      return Raise(ValueError, "Expected a string, got " + feature.typeName);
    }
    if channels.ChannelsOther? {
      return Raise(ValueError, "Expected a list, got " + channels.typeName);
    }
    var tokenized := TokenizeFeature(feature.text, channels.names);
    var parts := Split(tokenized, "_");
    r := FromParts(feature.text, parts);
  }

  // ------------------------------------------------------- channel lemmas

  lemma TokenizeChannelPieces(c: string)
    ensures TokenizeChannel(c) == Join(Split(c, "_"), Token)
    ensures '_' !in TokenizeChannel(c)
  {
    ReplaceIsJoinSplit(c, "_", Token);
    SplitPiecesNoSeparator(c, '_');
    JoinWithout(Split(c, "_"), Token, '_');
  }

  /** A channel without "_" or "Orig" is reported as it is. */
  lemma StandardizeNoPieces(t: string)
    requires '_' !in t && 'O' !in t
    ensures Standardize(t) == t
  {
    AbsentHead(t, "_");
    assert Split(t, "_") == [t];
    AbsentHead(t, "Orig");
  }

  /**
   * A channel name holding "_" (such as "mito_tubeness") survives the
   * tokenising: once tokenised it is a single "_"-token, and reporting that
   * token gives the name back.
   */
  lemma ChannelSurvives(c: string)
    requires 'X' !in c && 'O' !in c
    ensures '_' !in TokenizeChannel(c)
    ensures FinalChannel(TokenizeChannel(c)) == c
  {
    var pieces := Split(c, "_");
    var tok := TokenizeChannel(c);
    TokenizeChannelPieces(c);
    SplitPiecesWithout(c, "_", 'X');
    SplitPiecesWithout(c, "_", 'O');
    JoinWithout(pieces, Token, 'O');
    StandardizeNoPieces(tok);
    ReplaceIsJoinSplit(tok, Token, "_");
    SplitJoinAbsentHead(pieces, Token);
    JoinSplit(c, "_");
  }

  /** A leading "Orig" is dropped from a channel: "OrigAGP" is reported as "AGP". */
  lemma OrigDropped(a: string)
    requires '_' !in a && 'O' !in a && 'X' !in a
    ensures FinalChannel("Orig" + a) == a
  {
    var t := "Orig" + a;
    assert '_' !in t;
    AbsentHead(t, "_");
    assert Split(t, "_") == [t];
    assert OccursAt(t, "Orig", 0);
    assert t[4..] == a;
    AbsentHead(a, "Orig");
    assert Replace(t, "Orig", "") == a;
    AbsentHead(a, Token);
  }

  /** A single "_"-token without "Orig" or the placeholder is reported unchanged. */
  lemma ReportedUnchanged(t: string)
    requires '_' !in t && Find(t, "Orig") == None && Find(t, Token) == None
    ensures FinalChannel(t) == t
  {
    AbsentHead(t, "_");
    assert Split(t, "_") == [t];
  }

  lemma UnknownReported()
    ensures FinalChannel(Unknown) == Unknown
  {
    var u := Unknown;
    forall j | 0 <= j && j + 4 <= |u| ensures !OccursAt(u, "Orig", j) {
      assert u[j..j + 4][0] == u[j];
    }
    FindNone(u, "Orig");
    assert u[3] != Token[3];
    FindNone(u, Token);
    ReportedUnchanged(u);
  }

  lemma NotApplicableReported()
    ensures FinalChannel(NotApplicable) == NotApplicable
  {
    var n := NotApplicable;
    forall j | 0 <= j && j + 4 <= |n| ensures !OccursAt(n, "Orig", j) {
      assert n[j..j + 4][0] == n[j];
    }
    FindNone(n, "Orig");
    FindNone(n, Token);
    ReportedUnchanged(n);
  }

  // -------------------------------------------------------- parse lemmas

  /** A first token that is not a compartment makes every component "XUNKNOWN". */
  lemma UnknownCompartment(feature: string, parts: seq<string>)
    requires |parts| >= 2 && parts[0] !in Compartments
    ensures FromParts(feature, parts) == Ok(Parsed(feature, Unknown, Unknown, Unknown, Unknown))
  {
  }

  /** A known compartment is reported with the second token as the group. */
  lemma KnownCompartment(feature: string, parts: seq<string>)
    requires |parts| >= 1 && parts[0] in Compartments && FromParts(feature, parts).Ok?
    ensures FromParts(feature, parts).value.compartment == parts[0]
    ensures FromParts(feature, parts).value.featureGroup == parts[1]
  {
    KnownFields(parts);
  }

  lemma KnownFields(parts: seq<string>)
    requires |parts| >= 1 && parts[0] in Compartments && FieldsOf(parts).Ok?
    ensures |parts| >= 2 && FieldsOf(parts).value.compartment == parts[0] && FieldsOf(parts).value.group == parts[1]
  {
  }

  /** An unrecognised group makes the type and the channel "XUNKNOWN". */
  lemma UnknownGroup(feature: string, parts: seq<string>)
    requires |parts| >= 2 && parts[0] in Compartments
    requires parts[1] !in ShapeGroups + IntensityGroups + TextureGroups + ["Location", "Count", "Granularity", "Correlation"]
    ensures FromParts(feature, parts) == Ok(Parsed(feature, parts[0], parts[1], Unknown, Unknown))
  {
  }

  /** AreaShape-like groups: the third token is the type, there is no channel, and it must exist. */
  lemma ShapeGroupFields(feature: string, parts: seq<string>)
    requires |parts| >= 2 && parts[0] in Compartments && parts[1] in ShapeGroups
    ensures FromParts(feature, parts).Ok? <==> |parts| >= 3
    ensures |parts| >= 3 ==> FromParts(feature, parts) == Ok(Parsed(feature, parts[0], parts[1], parts[2], NotApplicable))
  {
  }

  /** Count features have neither type nor channel. */
  lemma CountFields(feature: string, parts: seq<string>)
    requires |parts| >= 2 && parts[0] in Compartments && parts[1] == "Count"
    ensures FromParts(feature, parts) == Ok(Parsed(feature, parts[0], "Count", NotApplicable, NotApplicable))
  {
  }

  /** Location features: "Center" has no channel, any other type reads the channel from the fifth token. */
  lemma LocationFields(feature: string, parts: seq<string>)
    requires |parts| >= 3 && parts[0] in Compartments && parts[1] == "Location"
    ensures parts[2] == "Center" ==> FromParts(feature, parts) == Ok(Parsed(feature, parts[0], "Location", "Center", NotApplicable))
    ensures parts[2] != "Center" ==> (FromParts(feature, parts).Ok? <==> |parts| >= 5)
    ensures parts[2] != "Center" && |parts| >= 5 ==>
      FromParts(feature, parts) == Ok(Parsed(feature, parts[0], "Location", parts[2], FinalChannel(parts[4])))
  {
  }

  /** Granularity features have no type; the channel is the fourth token. */
  lemma GranularityFields(feature: string, parts: seq<string>)
    requires |parts| >= 2 && parts[0] in Compartments && parts[1] == "Granularity"
    ensures FromParts(feature, parts).Ok? <==> |parts| >= 4
    ensures |parts| >= 4 ==>
      FromParts(feature, parts) == Ok(Parsed(feature, parts[0], "Granularity", NotApplicable, FinalChannel(parts[3])))
  {
  }

  /** Intensity, ImageQuality, Texture and RadialDistribution: type and channel are the third and fourth tokens. */
  lemma ChannelGroupFields(feature: string, parts: seq<string>)
    requires |parts| >= 2 && parts[0] in Compartments && parts[1] in IntensityGroups + TextureGroups
    ensures FromParts(feature, parts).Ok? <==> |parts| >= 4
    ensures |parts| >= 4 ==>
      FromParts(feature, parts) == Ok(Parsed(feature, parts[0], parts[1], parts[2], FinalChannel(parts[3])))
  {
  }

  /** Correlation features name both channels, sorted, so their order in the name does not matter. */
  lemma CorrelationFields(feature: string, parts: seq<string>, swapped: seq<string>)
    requires |parts| >= 5 && parts[0] in Compartments && parts[1] == "Correlation"
    requires |swapped| == |parts| && swapped[3] == parts[4] && swapped[4] == parts[3]
    requires forall k :: 0 <= k < |parts| && k != 3 && k != 4 ==> swapped[k] == parts[k]
    ensures FromParts(feature, parts) ==
      Ok(Parsed(feature, parts[0], "Correlation", parts[2], FinalChannel(Join(Sort([parts[3], parts[4]]), "_"))))
    ensures FromParts(feature, swapped) == FromParts(feature, parts)
  {
    CorrelationFieldsOf(parts, swapped);
  }

  lemma CorrelationFieldsOf(parts: seq<string>, swapped: seq<string>)
    requires |parts| >= 5 && parts[0] in Compartments && parts[1] == "Correlation"
    requires |swapped| == |parts| && swapped[3] == parts[4] && swapped[4] == parts[3]
    requires forall k :: 0 <= k < |parts| && k != 3 && k != 4 ==> swapped[k] == parts[k]
    ensures FieldsOf(parts) == Ok(Fields(parts[0], "Correlation", parts[2], ChannelToken(Join(Sort([parts[3], parts[4]]), "_"))))
    ensures FieldsOf(swapped) == FieldsOf(parts)
  {
    SortPairSymmetric(parts[3], parts[4]);
    assert swapped[0] == parts[0] && swapped[1] == parts[1] && swapped[2] == parts[2];
  }

  /**
   * The tokens of a tokenised channel feature: a channel holding "_" comes
   * out whole, as in `Cells_RadialDistribution_FracAtD_mito_tubeness_2of16`.
   */
  lemma ChannelFeatureParsed(feature: string, compartment: string, group: string, featureType: string, c: string,
                             rest: seq<string>)
    requires compartment in Compartments && group in IntensityGroups + TextureGroups
    requires '_' !in compartment && '_' !in group && '_' !in featureType
    requires forall k :: 0 <= k < |rest| ==> '_' !in rest[k]
    requires 'X' !in c && 'O' !in c
    ensures var tokens := [compartment, group, featureType, TokenizeChannel(c)] + rest;
      FromParts(feature, Split(Join(tokens, "_"), "_")) == Ok(Parsed(feature, compartment, group, featureType, c))
  {
    var tokens := [compartment, group, featureType, TokenizeChannel(c)] + rest;
    ChannelSurvives(c);
    assert forall k :: 0 <= k < |tokens| ==> '_' !in tokens[k] by {
      forall k | 0 <= k < |tokens| ensures '_' !in tokens[k] {
        if k >= 4 {
          assert tokens[k] == rest[k - 4];
        }
      }
    }
    SplitJoinAbsentHead(tokens, "_");
    ChannelGroupFields(feature, tokens);
  }

  // ----------------------------------------------------- tokenising lemmas

  /** Channel names that do not occur leave the feature as it is. */
  lemma {:induction false} TokenizedWithout(feature: string, channels: seq<string>)
    requires forall k :: 0 <= k < |channels| ==> channels[k] != [] && !Contains(feature, channels[k])
    ensures Tokenized(feature, channels) == feature
    decreases |channels|
  {
    if channels != [] {
      var init := channels[..|channels| - 1];
      assert forall k :: 0 <= k < |init| ==> init[k] == channels[k];
      TokenizedWithout(feature, init);
      ReplaceWithout(feature, channels[|channels| - 1], TokenizeChannel(channels[|channels| - 1]));
    }
  }

  /** A channel that occurs once is replaced by its tokenised form in place. */
  lemma TokenizeOnce(a: string, c: string, b: string)
    requires c != []
    requires forall j :: 0 <= j < |a| ==> !OccursAt(a + c + b, c, j)
    requires !Contains(b, c)
    ensures Tokenized(a + c + b, [c]) == a + TokenizeChannel(c) + b
  {
    var s := a + c + b;
    assert [c][..0] == [];
    assert OccursAt(s, c, |a|) by {
      assert s[|a|..|a| + |c|] == c;
    }
    FindFirst(s, c);
    assert Find(s, c) == Some(|a|);
    assert s[..|a|] == a && s[|a| + |c|..] == b;
    ReplaceWithout(b, c, TokenizeChannel(c));
  }
}
