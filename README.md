# TPG scoring, medals, ordinals and map tiles: a Dafny model

This project models the scoring core of a bot for TPG, a geography game played
in rounds. Each round shows a photo, and every player submits a guess of where it
was taken. The model covers four parts of that core:

- **Round scoring.** `tpg_score` and `custom_tpg_score` turn every player's
  distance from the target into a score. The modules are `Ranking`, `TpgScoring`
  and `CustomScoring`.
- **Medals.** `Medal` and `count_medals` tally the season's podium medals into
  a table sorted by medal score (module `Medals`).
- **Ordinals.** `get_ordinal` and `format_ordinal` write placings such as "1st",
  "12th" and "23rd" (module `FormatUtils`).
- **Map tiles.** The Google basemap enums and `get_google_map_provider` build a
  tile-provider URL (module `Plotting`).

`Wrappers` holds the `Option` type used for Python's `None`.

**Ranks without pandas.** pandas ranks are counts here:

- `rank(method='min')` is 1 plus the number of strictly smaller distances.
- `rank(method='max')` is the number of distances at most as large.
- "Players beaten" is therefore the number of strictly farther submissions.

**How `tpg_score` is modelled.** `TpgScoring.TpgScore` follows the order of the
source's statements:

1. Every vectorised pandas statement becomes a parallel update of an array.
2. The `groupby` loop over tied ranks becomes the method `AverageTies`. For
   every group it computes the mean (`GroupMeanOf`) and writes it back.

The model proves that this tie step leaves every score unchanged. Equal
min-ranks mean equal distances, and every component of a score depends only on
the distance and its rank. So each tie group's mean is the value every member
already has (`TieMeanIsComponent`). The docstring's remark that ties are not
yet taken into account is out of date: lines 38-40 do average ties. As
written, tied players already get equal scores before the averaging step.
`allow_negative` defaults to False, and the model proves that its value never
changes a score (`AllowNegativeNoEffect`): a distance component is negative
only beyond 20000 km, and such a submission is an antipode scoring 5000.

**How `count_medals` is modelled.**

- `TallyMedals` is the loop over players. It fills the `counts` columns and the
  `points` map.
- `BuildTable` stands for the DataFrame construction with `fillna(0)`.
- `SortByMedalScore` is `sort_values` by descending medal score.

A player with an empty medal list never enters any column of `counts`, so
the DataFrame built from `counts` has no row for them. Assigning `points` as
the `Medal Score` column aligns on the existing index, so such a player stays
out of the table, and the model gives them no row. The exception is a season
in which nobody has a medal: the frame built from `counts` then has no rows
at all, and assigning a column to a frame without rows takes the column's
index. The result has one row per player, with NaN medal cells and a Medal
Score of 0. `Medals.MedalRow` has a second constructor, `ScoreOnly`, for
these rows. `BuildTable` and `ScoreOnlyTable` build the two kinds of table,
and `CountMedals` chooses between them.

## Model

| member | source | states |
|---|---|---|
| Ranking.MinRank | lib/tpg_utils.py:29 | the min-rank of a submission lies between 1 and the number of submissions |
| Ranking.CountLess | lib/tpg_utils.py:29 | the number of strictly smaller distances, never more than N |
| Ranking.CountAtMost | lib/tpg_utils.py:30 | the number of distances at most as large, never more than N |
| Ranking.CountGreater | lib/tpg_utils.py:30 | the number of strictly larger distances, never more than N |
| Ranking.MaxRank | lib/tpg_utils.py:30 | the max-rank is at least the min-rank and at most the number of submissions |
| Ranking.CountLessOfMember | lib/tpg_utils.py:29-30 | a submission counts itself among those at most as far, so its min-rank is never above its max-rank |
| Ranking.CountAtMostPlusGreater | lib/tpg_utils.py:30 | submissions at most as far and strictly farther together make up the whole round, so size minus max-rank counts the strictly farther ones |
| Ranking.PlayersBeaten | lib/tpg_utils.py:30 | players beaten equals the number of strictly farther submissions and is at most N-1 |
| Ranking.BeatenScore | lib/tpg_utils.py:30-31 | the beaten component lies in [0, 5000]; it is 5000 exactly when every other submission is farther and 0 exactly when none is |
| Ranking.MinRankTies | lib/tpg_utils.py:29 | two submissions share a min-rank if and only if their distances are equal |
| Ranking.MinRankStrict | lib/tpg_utils.py:29 | a strictly closer submission has a strictly better min-rank |
| Ranking.BeatenScoreAntitone | lib/tpg_utils.py:30-31 | a submission no farther than another beats at least as many players and gets at least as large a beaten component |
| Ranking.CountLessMonotone | lib/tpg_utils.py:29 | the count of strictly smaller distances grows with the distance compared against |
| Ranking.CountGreaterAntitone | lib/tpg_utils.py:30 | the count of strictly larger distances shrinks as the distance compared against grows |
| Ranking.CountLessStrict | lib/tpg_utils.py:29 | a distance in the round strictly below y has strictly fewer distances below it than y has |
| Ranking.CountLessAtMost | lib/tpg_utils.py:29-30 | fewer distances are strictly smaller than a value than are at most as large |
| Ranking.FractionBounds | lib/tpg_utils.py:31 | proof helper: `players_beaten / (size - 1)` lies in [0, 1]; it is 1 exactly when all other players are beaten and 0 exactly when none is |
| Ranking.DivideMonotone | lib/tpg_utils.py:31 | proof helper: dividing by the positive `size - 1` keeps the order of players-beaten counts |
| TpgScoring.DistanceScore | lib/tpg_utils.py:25-27 | the distance component is 0.25*(20000-d); without allow_negative it is clipped to 0 beyond 20000 km and never negative; it is at most 5000 for a non-negative distance |
| TpgScoring.DistanceScoreAntitone | lib/tpg_utils.py:25-27 | a closer submission never gets a smaller distance component |
| TpgScoring.RankBonus | lib/tpg_utils.py:33 | the rank bonus lies in [0, 3000] and is positive exactly for ranks 1 to 3 (the missing map entries become 0 through fillna) |
| TpgScoring.RankBonusAntitone | lib/tpg_utils.py:33 | a better rank never gets a smaller bonus |
| TpgScoring.Bonus | lib/tpg_utils.py:33-36 | the bonus is 5000 exactly when the distance is at most 0.1 km, otherwise the rank bonus of the min-rank |
| TpgScoring.ComponentScore | lib/tpg_utils.py:25-37 | an antipode (d >= 19995) scores 5000; without allow_negative no score is negative; a non-negative distance scores at most 15000 |
| TpgScoring.Components | lib/tpg_utils.py:25-37 | the pre-tie scores have one entry per submission, each the submission's component score; tied distances get equal entries, every antipode gets 5000, no entry is negative without allow_negative, and below the antipode threshold a closer submission's entry is at least a farther one's |
| TpgScoring.ComponentsShape | lib/tpg_utils.py:25-37 | tied distances get equal component scores, and below the antipode threshold a closer submission's component score is at least a farther one's |
| TpgScoring.ScoreComponents | lib/tpg_utils.py:25-37 | the vectorised statements before the tie step, run as parallel array updates, leave each entry equal to the submission's component score |
| TpgScoring.MinRanks | lib/tpg_utils.py:29 | the rank series has one min-rank per submission, each between 1 and N; one rank is smaller than another exactly when its distance is smaller, and two ranks are equal exactly when the distances are equal |
| TpgScoring.MinRanksOrder | lib/tpg_utils.py:29 | min-ranks order the submissions exactly as their distances do: strictly smaller rank if and only if strictly closer, equal rank if and only if equal distance |
| TpgScoring.TpgScoreTies | lib/tpg_utils.py:29-37 | tied distances get equal pre-tie scores and equal min-ranks |
| TpgScoring.TpgScoreMonotone | lib/tpg_utils.py:25-37 | below the antipode threshold a strictly closer submission never scores less |
| TpgScoring.AllowNegativeNoEffect | lib/tpg_utils.py:17-37 | the default `allow_negative=False` and an explicit True give the same pre-tie scores for every round |
| TpgScoring.GroupSizeOfMember | lib/tpg_utils.py:38-40 | the group of an existing key is non-empty, so its mean is defined |
| TpgScoring.GroupMean | lib/tpg_utils.py:40 | `group.mean()`: the total of the group of submission i divided by its size; the partner lemmas GroupSizeOfMember and MeanOfUniformGroup state that it is defined and that a uniform group's mean is its common value |
| TpgScoring.GroupTotalUniform | lib/tpg_utils.py:38-40 | a group whose values are all v sums to its size times v |
| TpgScoring.MeanOfUniformGroup | lib/tpg_utils.py:38-40 | the mean of a group whose members all hold the same value is that value |
| TpgScoring.MeanOfCopies | lib/tpg_utils.py:40 | proof helper: n copies of the same value v average to v |
| TpgScoring.ComponentsUniformOnTies | lib/tpg_utils.py:38-40 | the pre-tie scores are constant on each group of equal min-rank |
| TpgScoring.TieMeanIsComponent | lib/tpg_utils.py:38-40 | the mean of each submission's tie group equals its own pre-tie score: the averaging step changes nothing |
| TpgScoring.GroupMeanOf | lib/tpg_utils.py:38-40 | `group.mean()`: the loop returns the mean of the group's values in the original series |
| TpgScoring.AverageTies | lib/tpg_utils.py:38-40 | after the loop over groups, every entry holds the mean of its group in the series as it was before the loop |
| TpgScoring.TpgScore | lib/tpg_utils.py:17-41 | every returned score is the mean of the pre-tie scores of its tie group, and that equals the submission's own component score |
| CustomScoring.WorldDistanceScore | lib/tpg_utils.py:62-64 | the distance component is world_distance - d, clipped to 0 beyond the world distance unless negatives are allowed |
| CustomScoring.Truthy | lib/tpg_utils.py:68 | `if fivek_score:` is false for None and for 0; CustomScoreNoOverride states what the scores are then |
| CustomScoring.FivekApplies | lib/tpg_utils.py:68-69 | the 5K override applies to a distance when fivek_score is truthy and the distance is at most a present threshold; FivekAppliesDownward states that the band is closed downwards |
| CustomScoring.FivekAppliesDownward | lib/tpg_utils.py:68-69 | anything closer than a submission given the flat 5K score is given it too |
| CustomScoring.CustomScoreAt | lib/tpg_utils.py:62-69 | a submission in the 5K band gets exactly fivek_score; otherwise the score is non-negative without allow_negative and at most (world_distance + 5000)/2 |
| CustomScoring.CustomTpgScore | lib/tpg_utils.py:44-70 | one score per submission: the flat 5K score inside the band, otherwise half of the distance component plus 5000 * players strictly farther / (N-1) |
| CustomScoring.CustomTpgScoreDefaults | lib/tpg_utils.py:44-51 | with the default arguments, every submission within 0.1 km scores 7500; every other one scores half of its 20000 km distance component plus its beaten component, at most 12500; without allow_negative no score is negative |
| CustomScoring.CustomScoreNoOverride | lib/tpg_utils.py:68-69 | with fivek_score None or 0 every score is the plain average of the two components |
| CustomScoring.CustomScoreTies | lib/tpg_utils.py:62-69 | tied distances get equal scores, even though the function does no explicit tie step |
| CustomScoring.CustomScoreMonotone | lib/tpg_utils.py:62-69 | outside the 5K band, a farther submission is outside it too and never scores more |
| Medals.Medal.Value | lib/tpg_utils.py:73-78 | Gold is worth 3, Silver 2 and Bronze 1, and each value identifies its medal |
| Medals.Count | lib/tpg_utils.py:97 | how many of a player's medals are a given medal, never more than the number of medals |
| Medals.Points | lib/tpg_utils.py:100 | `sum(player_medals)` lies between the number of medals (all Bronze) and three times it (all Gold) |
| Medals.PointsWeighted | lib/tpg_utils.py:100 | the sum of a player's medals is 3 per Gold, 2 per Silver and 1 per Bronze |
| Medals.CountsTotal | lib/tpg_utils.py:97-99 | the three per-medal counts add up to the number of medals won |
| Medals.Tally | lib/tpg_utils.py:96-105 | a player's row has medal score 3*gold + 2*silver + bronze, and its three counts add up to the player's medals |
| Medals.CountEach | lib/tpg_utils.py:97 | `Counter`: exactly the medals that occur are keys, each mapped to its number of occurrences |
| Medals.Record | lib/tpg_utils.py:98-99 | writing a player's counter into `counts` sets that player's cell in exactly the columns of the medals they won, and changes no other player's cell and no other column |
| Medals.RecordIn | lib/tpg_utils.py:98-99 | one medal column after the write: the player's cell is their count if they won that medal, the column is untouched otherwise, and other players' cells are unchanged |
| Medals.RecordColumns | lib/tpg_utils.py:98-99 | the write keeps the three columns and changes each as RecordIn says |
| Medals.RecordColumn | lib/tpg_utils.py:98-99 | writing one player's counter into a medal column keeps that column exact for the recorded players |
| Medals.RecordPoints | lib/tpg_utils.py:100 | adding one player's points keeps the points map exact for the recorded players |
| Medals.RecordPlayer | lib/tpg_utils.py:96-100 | one iteration of the player loop keeps every column and the points map exact |
| Medals.TallyMedals | lib/tpg_utils.py:91-100 | after the loop, each medal column holds exactly the players who won that medal, with the count, and every player has the sum of their medals |
| Medals.RowOf | lib/tpg_utils.py:102-105 | a player's DataFrame row: their medal score, and a positive count of a medal exactly when the column holds a positive count for them |
| Medals.CountOrZero | lib/tpg_utils.py:104 | `fillna(0)` for one cell: a player absent from a medal column has 0 of it; ColumnCount states that this gives the player's true count |
| Medals.ColumnCount | lib/tpg_utils.py:102-104 | a filled column gives each player their count, with a missing cell read as 0, and lists the player exactly when the count is positive |
| Medals.TalliedRows | lib/tpg_utils.py:102-105 | the DataFrame index (the union of the columns) is exactly the players with at least one medal, and each index row equals that player's tally |
| Medals.AppendListed | lib/tpg_utils.py:102-105 | adding a row for a new player keeps every listed player in the table and no player twice |
| Medals.AppendKeeps | lib/tpg_utils.py:102-105 | adding a correct tally row keeps every row a correct tally |
| Medals.BuildTable | lib/tpg_utils.py:102-105 | when somebody has a medal: one correct tally row per player with at least one medal, no row for anybody else, no player twice |
| Medals.ScoreOnlyTable | lib/tpg_utils.py:105 | assigning `points` to a frame without rows: one row per player, with NaN medal cells and the player's points, no player twice |
| Medals.NoRowsNoMedals | lib/tpg_utils.py:102-105 | a tally table listing every player with medals is empty only when nobody has a medal |
| Medals.TallyMedalTable | lib/tpg_utils.py:102-105 | a non-empty tally table is the medal table of a season in which somebody has a medal |
| Medals.ScoreOnlyMedalTable | lib/tpg_utils.py:102-105 | when nobody has a medal, the score-only table is the medal table: every player's Medal Score is 0 |
| Medals.SortByMedalScore | lib/tpg_utils.py:106 | the sorted table is a permutation of the rows, ordered by non-increasing medal score |
| Medals.InsertByMedalScore | lib/tpg_utils.py:106 | inserting a row adds exactly that row to the multiset of rows |
| Medals.InsertKeepsOrder | lib/tpg_utils.py:106 | inserting into a table ordered by descending score keeps it ordered |
| Medals.WithScore | lib/tpg_utils.py:106 | the rows with a given medal score, in their order; there are never more of them than rows |
| Medals.InsertWithScore | lib/tpg_utils.py:106 | inserting a row puts it before the rows of equal score, and leaves the order of the rows of each score unchanged |
| Medals.SortByMedalScoreStable | lib/tpg_utils.py:106 | the sort keeps the input order among rows of equal medal score |
| Medals.ConsNonIncreasing | lib/tpg_utils.py:106 | a row with a score at least that of the head of a descending table can go in front of it |
| Medals.PermutationKeepsDistinct | lib/tpg_utils.py:106 | reordering the rows cannot make a player appear twice |
| Medals.TwiceInMultiset | lib/tpg_utils.py:106 | proof helper: a row at two positions occurs at least twice in the multiset of rows |
| Medals.DistinctAtMostOnce | lib/tpg_utils.py:106 | proof helper: a table without repeated players holds each row at most once |
| Medals.PermutationKeepsTable | lib/tpg_utils.py:106 | sorting keeps each case of the medal table: the same rows, every player still listed, no player twice |
| Medals.CountMedals | lib/tpg_utils.py:81-106 | when somebody has a medal, every row is the correct tally of a player with at least one medal and every such player has a row; when nobody has one, every player has exactly one row, with NaN medal cells and Medal Score 0; no player appears twice; rows go from highest to lowest medal score |
| FormatUtils.GetOrdinal | lib/format_utils.py:94-97 | the suffix is one of st, nd, rd, th, and every n whose remainder mod 100 is between 10 and 20 gets "th" |
| FormatUtils.GetOrdinalCases | lib/format_utils.py:94-97 | "st", "nd" and "rd" are chosen exactly when the last digit is 1, 2 or 3 outside 10..20 mod 100; "th" is chosen in every other case |
| FormatUtils.LastDigitOfLastTwo | lib/format_utils.py:95-97 | the last digit of n mod 100 is the last digit of n, so the two tests in get_ordinal agree on it |
| FormatUtils.GetOrdinalMod100 | lib/format_utils.py:95-97 | the suffix depends only on n mod 100 |
| FormatUtils.GetOrdinalExamples | lib/format_utils.py:94-97 | 1st, 2nd, 3rd, 4th, 11th, 12th, 13th, 21st, 22nd, 23rd, 101st, 111th, 112th; -9 gives "st" and -3 gives "th" under the floored remainder |
| FormatUtils.DigitChar | lib/format_utils.py:104 | a digit value below 10 is written as the character '0' + v |
| FormatUtils.DigitValue | lib/format_utils.py:104 | reading a digit character gives the value below 10 that is written as it |
| FormatUtils.NatDecimal | lib/format_utils.py:104 | the decimal text of a natural number is non-empty and all digits; it starts with '0' exactly for 0, so it has no leading zero |
| FormatUtils.Decimal | lib/format_utils.py:104 | `f'{n}'`: digits, preceded by '-' exactly for a negative n, with no leading zero and no "-0" |
| FormatUtils.NatDecimalRoundTrip | lib/format_utils.py:104 | reading the digits back gives the number |
| FormatUtils.DecimalRoundTrip | lib/format_utils.py:104 | reading the signed decimal text back gives the integer |
| FormatUtils.ParseNatPositive | lib/format_utils.py:104 | digits that do not start with '0' read as a positive number |
| FormatUtils.NatDecimalCanonical | lib/format_utils.py:104 | every digit string without a leading zero is the decimal text of the number it reads as |
| FormatUtils.DecimalCanonical | lib/format_utils.py:104 | every signed digit string without a leading zero and without "-0" is `f'{n}'` of the integer it reads as, so `f'{n}'` is exactly the canonical text |
| FormatUtils.FormatOrdinal | lib/format_utils.py:99-104 | the text is the decimal text of n followed by GetOrdinal(n), and the text before the suffix reads back as n |
| Plotting.GoogleBasemap.Value | lib/plotting.py:8-19 | every basemap code is one lower-case letter |
| Plotting.GoogleBasemap.Name | lib/plotting.py:8-19 | every basemap name starts with a capital letter and has at least seven characters |
| Plotting.BasemapFromName | lib/plotting.py:8-19 | looking a basemap up by its name only finds a basemap with that name |
| Plotting.BasemapNameRoundTrip | lib/plotting.py:8-19 | every basemap is found again from its name, so the names are distinct |
| Plotting.BasemapFromValue | lib/plotting.py:8-19 | looking a basemap up by its code only finds a basemap with that code |
| Plotting.BasemapValueRoundTrip | lib/plotting.py:8-19 | every basemap is found again from its code, so the codes are distinct |
| Plotting.GoogleMapsAdditionalLayer.Value | lib/plotting.py:22-25 | every additional-layer value is a seven-letter lower-case word |
| Plotting.AdditionalLayerFromValue | lib/plotting.py:22-25 | looking an additional layer up by its value only finds a layer with that value |
| Plotting.AdditionalLayerValueRoundTrip | lib/plotting.py:22-25 | every additional layer is found again from its value, so the values are distinct |
| Plotting.LayerValues | lib/plotting.py:37 | one value per additional layer, in order: each a seven-letter lower-case word without a comma, from which the layer is found again |
| Plotting.LayerWords | lib/plotting.py:22-25 | every additional-layer value is a comma-free lower-case word from which the layer is found again |
| Plotting.JoinComma | lib/plotting.py:37 | `','.join(...)` of lower-case words holds only lower-case letters and commas |
| Plotting.JoinCommaLength | lib/plotting.py:37 | joining k words of w letters each gives k*(w+1)-1 characters |
| Plotting.HasLayers | lib/plotting.py:36 | `if additional_layers:` is false for None and for an empty sequence; LayerParam states what the parameter is in each case |
| Plotting.LayerParam | lib/plotting.py:35-37 | the lyrs parameter starts with the basemap code and holds only lower-case letters and commas; it is the code alone exactly when additional_layers is None or empty, and otherwise adds a comma and a seven-letter word per layer |
| Plotting.CodeThenWords | lib/plotting.py:35-37 | the basemap code, a comma and the joined seven-letter layer values make lower-case text of 1 + 8 * (number of layers) characters that starts with the code |
| Plotting.HasLocale | lib/plotting.py:40 | `if locale:` is false for None and for the empty string; LocaleInUrl states what the URL holds in each case |
| Plotting.GetGoogleMapProvider | lib/plotting.py:28-43 | the provider is named Google.<basemap name> with attribution Google and max zoom 20; its URL starts with the lyrs prefix and the basemap code, and ends with the x/y/z template |
| Plotting.GetGoogleMapProviderDefaults | lib/plotting.py:28-43 | with the default arguments (no additional layers, locale "en") the provider is named Google.<basemap name> and its URL is the lyrs prefix, the basemap code, "&hl=en" and the x/y/z template |
| Plotting.ProviderNamesDistinct | lib/plotting.py:43 | two providers with the same name come from the same basemap |
| Plotting.SplitJoinComma | lib/plotting.py:37 | splitting comma-joined comma-free words gives back the words |
| Plotting.SplitComma | lib/plotting.py:37 | `str.split(',')` gives at least one part |
| Plotting.SplitCommaAfter | lib/plotting.py:37 | splitting a comma-free word, a comma and the rest gives the word followed by the split of the rest |
| Plotting.SplitCommaNone | lib/plotting.py:37 | splitting a comma-free word gives that word alone |
| Plotting.LayerParamLists | lib/plotting.py:35-37 | the lyrs parameter splits into the basemap code followed by the additional layers' values, or the code alone when additional_layers is None or empty |
| Plotting.ProviderUrlRoundTrip | lib/plotting.py:35-42 | parsing the URL gives back the basemap code, the additional layers in order, and the locale exactly when it is truthy |
| Plotting.ParseAssembled | lib/plotting.py:39-42 | the URL assembled from the prefix, a '&'-free lyrs parameter, an optional "&hl=" part and the x/y/z template parses back into the parameter's parts and the locale |
| Plotting.ParseBetweenAssembled | lib/plotting.py:39-42 | stripping the fixed prefix and suffix from the assembled URL leaves the query between them |
| Plotting.ParseQueryAssembled | lib/plotting.py:39-41 | the query text splits into the lyrs parameter's parts and the optional locale |
| Plotting.TakeUntilAmp | lib/plotting.py:39-41 | the text up to the first '&' is a prefix of the query |
| Plotting.TakeUntilAmpAt | lib/plotting.py:39-41 | the text up to the first '&' of a '&'-free word followed by a part starting with '&' is the word |
| Plotting.TakeUntilAmpEnd | lib/plotting.py:39 | a '&'-free lyrs parameter is read whole |
| Plotting.UrlConstants | lib/plotting.py:39-42 | proof helper: the fixed URL prefix holds no '&', and the fixed suffix starts with "&x" and holds no 'h' |
| Plotting.LocaleInUrl | lib/plotting.py:40-41 | the URL contains "&hl=" if and only if the locale is truthy (not None, not empty) |
| Plotting.MarkerPresent | lib/plotting.py:40-41 | a URL with the locale part appended contains "&hl=" |
| Plotting.MarkerIff | lib/plotting.py:39-42 | when the text before the locale part holds no '&' and the template after it no 'h', the URL contains "&hl=" exactly when the locale part is there |
| Plotting.NoLocaleMarker | lib/plotting.py:40-42 | without a locale part, the fixed text and the lyrs parameter cannot form "&hl=" |

## Left out

- TpgScoring.TpgScore and CustomScoring.CustomTpgScore: they return the scores before the final `.round(2)`. Scores are exact reals, because floating-point rounding is not modelled.
- Rounds with fewer than two submissions: with one submission `5000 * players_beaten / (size - 1)` divides 0 by 0 and gives NaN in pandas, and an empty series gives an empty result. `TpgScoring.TpgScore` and `CustomScoring.CustomTpgScore` require at least two submissions, so both cases are outside the model.
- Floating-point distances, NaN and infinities: distances are Dafny reals.
- `tpg_score`'s `distances` series index: scores are returned positionally, so the model assumes unique index labels. With duplicate labels, `scores.loc[group.index] = group.mean()` writes one group's mean into every row carrying one of that group's labels, including rows of other groups; the positional model does not show this.
- CustomScoring.CustomTpgScore: a `fivek_threshold` of None is modelled as excluding every submission from the 5K override, as comparing a float series with None gives an all-False mask.
- Medals.CountMedals: the input Mapping is a Dafny `map`, so the order of players in the input is not modelled. `sort_values` uses an unstable sort by default, so pandas leaves the order of rows with equal medal scores unspecified. The model's insertion sort keeps the input order among equal scores (`Medals.SortByMedalScoreStable`), which is one of the orders pandas may produce; the contract of `Medals.CountMedals` states only the order by medal score.
- Medals.CountMedals: the index name `Player` and the column labels are not modelled. A row is a record with named fields. The NaN medal cells of a season without medals are not values: a `ScoreOnly` row has no medal fields at all.
- Medals.CountMedals: when some medal cell was missing, pandas holds that column as floats even after `fillna(0)`; the model keeps every count as a natural number.
- Plotting.GetGoogleMapProvider: the `@cache` memoisation is left out because it does not change results. `@cache` hashes its arguments, so a list passed as `additional_layers` raises TypeError; the model's sequence stands for a tuple, and the unhashable-argument error is not modelled. `TileProvider` (from xyzservices) is reduced to the four fields it is given. A generator passed as `additional_layers` would be truthy even when empty, and that case is not modelled either.
- FormatUtils.FormatOrdinal: only integer-valued input is modelled. The branch for non-integer floats (`f'{n:.2f}th'`) is left out because it formats a float.
- `get_round_stats`, `RoundStats` and the geodesic helpers in lib/geo_utils.py are not part of this model.
