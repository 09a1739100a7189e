/** The SDG label table and the score column names. */
module Goals {

  /** Number of goals the scorer rates; a score vector has one entry per goal. */
  const NumGoals: nat := 17

  /** Index of the sentinel label used when no goal was found. */
  const UnknownIndex: nat := 17

  /** `SDG_GOALS`: labels of goals 1..17, then the sentinel. */
  const SdgGoals: seq<string> := [
    "1-Poverty", "2-Hunger", "3-Health", "4-Education", "5-Gender", "6-Water",
    "7-Energy", "8-Work", "9-Innovation", "10-Inequalities", "11-Sustainable Cities",
    "12-Consumption", "13-Climate Action", "14-Life Below Water", "15-Life on Land",
    "16-Institutions", "17-Partnerships", "unknown"
  ]

  /** `SDG_COLS`: the column names `sdg_1` .. `sdg_17`; column `sdg_(g+1)` holds goal index `g`. */
  const SdgCols: seq<string> := [
    "sdg_1", "sdg_2", "sdg_3", "sdg_4", "sdg_5", "sdg_6", "sdg_7", "sdg_8", "sdg_9",
    "sdg_10", "sdg_11", "sdg_12", "sdg_13", "sdg_14", "sdg_15", "sdg_16", "sdg_17"
  ]

  /** One label per goal plus the sentinel, which is the only "unknown". */
  lemma GoalTable()
    ensures |SdgGoals| == NumGoals + 1 && |SdgCols| == NumGoals
    ensures SdgGoals[UnknownIndex] == "unknown"
    ensures forall g :: 0 <= g < NumGoals ==> SdgGoals[g] != "unknown"
  {
  }
}
