# Genealogy enrichment, calibration and lineage: a Dafny model

The repository collects who advised whose doctorate, merges several harvests of that graph, decides which edges
can be trusted, checks the result, loads it into a graph database and draws it as a tree.  Beside that it
calibrates the confidences of a name classifier.  This project models the parts of that code where a mistake would
be silent, and proves what each part is for.

How the files fit together:

- **Calibration** (`Samples`, `Isotonic`, `LeastSquares`, `BucketScore`, `ScoreSize`, `Folds`, `CrossValidation`).
  The pool-adjacent-violators loop, the application of its knots, the ten-bucket scorer, the size of its scores and
  k-fold scoring, over exact reals.  The fit is the unique least-squares monotone fit, and scoring it on its own
  training set must give an expected calibration error of exactly zero.
- **Edges** (`Names`, `Edges`, `MergeRuns`, `Identities`, `TrustOrder`, `Corrections`, `Ledger`, `Vetting`,
  `Labels`, `Relays`, `EdgeIntegrity`, `Regime`, `VettingRisk`, `Verdicts`).  Lookup keys, the fusion of claims
  about one advisor, human corrections and what a ledger keeps, vetting labels and the evidence they count, removal
  of impossible edges, the risk tier of an edge and what decides it.
- **The build** (`Records`, `Filters`, `Stages`, `StageOrder`, `Passes`, `Stubs`, `StubForms`, `MapImages`,
  `AliasMerge`, `Precedence`, `Convergence`, `OnePerson`, `SlotHistory`, `UnionTraces`, `UnionNames`, `Retraction`,
  `Kinship`, `Adjudication`, `Standings`, `AliasPasses`, `Aliases`, `Suppression`, `Erasure`, `Pipeline`,
  `Dislodged`, `Outcome`, `Build`).  The stages as functions on the dictionary of records, the loops that carry them
  out, the alias loop run to its fixed point, what a union of records keeps and what it brings back, erasure, what
  holds at the end of all stages, and one object whose methods run them in order.
- **The gate** (`CycleFinder`, `Invariants`, `Faults`, `Validator`).  The cycle search and the invariants I1 to I8,
  which are also the specification the build stages are held to.
- **Use of the graph** (`Loader`, `LoadRun`, `Batches`, `Database`, `LoadedContent`, `LoaderGap`, `Lineage`,
  `LineageTables`, `Hashcash`).  The quotient of the graph by identity, its loading in batches, what the upserts
  make of them, the unfolding of an edge list into a tree, and the proof-of-work bit count.
- **Theses** (`SingleLink`, `ThesisDedup`, `ThesisTests`).  Greedy near-duplicate clustering.

A name is a sequence of clean tokens, split at its first comma.  A record has a dictionary of plain fields, an
optional list of advisor edges, an institution, source parts and an identifier.  A dictionary is a map together
with the list of its keys in insertion order.  Identifiers come from an unspecified function of canonical form and
dates.  Methods follow the loops and in-place updates of the source and are proved equal to functions; the lemmas
are about those functions.

## Where the code differs from what it says

- Fusing edges keeps "provenance and identifiers": a QID does survive, an IdRef does not if the overriding claim
  has another one (`Edges.IdRefSurvivesIff`, `Edges.IdRefIsLost`).
- The union of records is said to keep per-edge provenance.  It keeps every QID and every edge's own source, but an
  edge of a record without precedence forgets the list of sources it carried, and the statement it cites may lose
  to another.  So a record that traced to MGP may no longer do so (`UnionTraces.UnionDropsTheTrace`; exactly when:
  `UnionTraces.SourcesSurviveIff`, `UnionTraces.UnitedTracesIff`, for one edge `Edges.IncomingSourcesSurviveIff`).
- A retraction is meant to outlive the next build.  It lasts against the harvests, but the union brings the edge
  back from any other spelling of the student that lists it, so the ledger must name them all
  (`Retraction.RetractedAdvisorReturns`).  Nothing comes back that no other spelling lists, whether by QID, IdRef or
  name (`Retraction.RetractionLasts`; through the whole build: `Pipeline.FinalTest`).  What another spelling lists
  by QID does come back (`Retraction.RetractionLastsIff`); an IdRef may lose to another one instead
  (`Retraction.IdRefNeedNotReturn`; exactly when: `SlotHistory.UnitedHoldsIff`).
- An assertion is meant to mint an edge that no automated source can dislodge.  Merges keep it, but the integrity pass
  keeps the first edge of a name whatever its tier, so an automated homonym that stands first dislodges it
  (`Dislodged.AssertionIsDislodged`), and so does an automated edge in the opposite direction
  (`Adjudication.ReversedEdgeDislodges`).  It passes exactly if it is possible and the first of its name
  (`Adjudication.IntegrityAffirmsIff`).  After that an assertion by QID lasts to the end unless its advisor is erased.
  One by IdRef alone does so if no curated edge with another IdRef, or with none, goes into the student's record
  (`Pipeline.FinalAffirms`); where one does, the spellings' union may keep the other IdRef
  (`Dislodged.IdRefIsDislodged`).  Exactly when a record affirms an assertion at the end: `Pipeline.FinalAffirmsIff`.
- Relaying MGP is said not to be independent evidence.  Only the slot's own source is discounted, so two relays of
  one claim vet each other, a registry is discounted in place of a relay that corroborates it, and a source that
  claims an edge twice, once citing MGP, is discounted altogether (`Relays.TwoRelaysVetEachOther`,
  `Relays.RegistryDiscountedForRelay`, `Relays.OwnEvidenceDiscounted`; exactly when a label is right:
  `Relays.LabelRightIff`).
- The gate says that the integrity pass settles I1 to I3.  The alias loop runs later: two spellings that refer to
  each other become a self-loop, hence a cycle, and one advisor under two QIDs is listed twice
  (`Kinship.MergeMakesSelfLoop`, `Kinship.MergeMakesDuplicate`; exactly when: `Kinship.SettledI1Iff`,
  `Kinship.SettledI2Iff`, `Kinship.SettledI3Iff`).  There is no self-loop and no cycle if references make none when
  spellings of one person count as one (`Kinship.SettledKeepsI1`, `Kinship.SettledKeepsI2`).
- Dropped same-name duplicates leave their QID in `qid_dup`, but only the first other QID; a third one is lost
  (`EdgeIntegrity.ThirdQidIsLost`; exactly when: `EdgeIntegrity.QidsKeptIff`).
- The clustering of theses is called single-link; it computes single-link components exactly when no record
  bridges two clusters (`SingleLink.ComponentsIff`, `ThesisDedup.BridgeIsSplit`).  It still never over-merges.
- A band that lies past the last regime window gets REVIEW, so widening it downwards can improve its tier where
  the last window is trusted (`Regime.WideningImproves`; exactly when: `Regime.WideningSafeIff`).
- I8 says records that share an identifier agree; it compares whether they have advisors, not which.  A graph can
  pass all eight checks and lose an edge, and gain a cycle, on loading (`LoaderGap.CleanGateLosesAnEdge`).
- The loader calls its choice of node the one the reverse index makes.  The index goes by insertion order and the
  loader by the sorted order of the file, so they may differ (`Loader.SortedOrderDisagrees`); they agree exactly
  if every identifier has the same first key in both (`Loader.IndexNamesTheNodeIff`).
- The loader says that running it again updates existing nodes.  It updates edges; a node's property changes only
  if it was null (`Database.CorrectedYearIsRefused`; exactly when: `Database.CorrectionArrivesIff`), and nodes and
  edges that a newer file no longer has stay (`Database.NothingLeaves`).
- Normalising a key twice changes it if the name has a comma with nothing on one side (`Names.StrayCommaMoves`;
  exactly when: `Names.NormalizeIdempotentIff`).

## Model

| member | source | states |
|---|---|---|
| Isotonic.Aggregate | tools/calibration.py:125-137 | one point per distinct confidence, ascending, holding exactly the count and the correct count of the samples there |
| Isotonic.PoolViolators | tools/calibration.py:139-156 | pooling a violating pair keeps every prefix of the pooled run at or above its mean: the invariant behind the loop |
| Isotonic.PavFit | tools/calibration.py:84-158 | terminates; its knots read off blocks that partition the aggregated samples contiguously, conserve their sums, and have non-decreasing means whose prefixes dominate |
| LeastSquares.ApplyIsotonic | tools/calibration.py:161-168 | the first knot at or above the confidence decides, the last one above all of them, the confidence itself without knots |
| LeastSquares.PooledShape | tools/calibration.py:94-98 | thresholds strictly ascend, values do not descend and lie in [0, 1], each threshold is a sample's confidence, and only no samples give no knots |
| LeastSquares.FittedMonotone | tools/calibration.py:161-168 | applied to any two confidences, fitted knots keep their order |
| LeastSquares.PooledIsLeastSquares | tools/calibration.py:84-158 | no non-decreasing function has a smaller squared error on the samples; each loses at least its squared distance from the fit |
| LeastSquares.LeastSquaresUnique | tools/calibration.py:84-158 | a monotone function is as good as the fit if and only if it agrees with it on every sample |
| BucketScore.EceBrierOnBuckets | tools/calibration.py:171-206 | the counters, the calibration error and the Brier score of the samples, in one pass over the samples and one over the buckets |
| ScoreSize.TalliesAre | tools/calibration.py:187-195 | a bucket counts the samples that land in it and the correct ones among them, and sums their confidences |
| ScoreSize.ECEIs | tools/calibration.py:196-205 | times the number of samples, the calibration error is the sum, over ten buckets, of the distance between the number of correct samples and the sum of confidences; without samples it is zero |
| ScoreSize.ECEAtMostOne | tools/calibration.py:196-205 | on probabilities the calibration error lies in [0, 1] |
| ScoreSize.BrierIs | tools/calibration.py:178-205 | times the number of samples, the Brier score is the sum of squared distances of confidence from label; on probabilities it lies in [0, 1] |
| BucketScore.BucketOf | tools/calibration.py:77-81 | ten buckets of equal width on [0, 1), the last one from 1 on; below 0 the fraction is cut off towards zero and a negative index counts from the end |
| BucketScore.ECEZeroIff | tools/calibration.py:196-205 | the calibration error is never negative, and zero if and only if each bucket's confidences sum to its correct count |
| BucketScore.TrainingECEIsZero | tools/calibration.py:301-306 | on the set it was fitted on, the calibrated error is exactly zero |
| BucketScore.TrainingBrierImproves | tools/calibration.py:301-306 | on that set calibration never raises the Brier score |
| Folds.StrideHas | tools/calibration.py:245-245 | fold f gets the positions f, f + k, f + 2k and so on |
| Folds.FoldsDealAll | tools/calibration.py:243-245 | the k strided folds together are a rearrangement of the shuffled order |
| Folds.OthersCount | tools/calibration.py:246-247 | the training positions of a fold are all that it does not hold out |
| Folds.FoldAt | tools/calibration.py:243-245 | position f + m * k of the order is number m of fold f |
| CrossValidation.OutOfFold | tools/calibration.py:247-254 | each fold's samples are calibrated by knots fitted on exactly the samples outside the fold |
| CrossValidation.PredictionsAreScored | tools/calibration.py:252-254 | a prediction scored in a fold belongs to a position that fold holds out, keeps that sample's label, and is its confidence calibrated by that fold's knots |
| CrossValidation.CrossValidationIsHonest | tools/calibration.py:209-256 | every sample is predicted once, and a position is trained on in a fold if and only if it is not held out there |
| CrossValidation.KFoldCvMetrics | tools/calibration.py:209-256 | scores the out-of-fold predictions, or nothing without samples or with fewer than two folds |
| CrossValidation.Evaluate | tools/calibration.py:296-306 | scores the raw test set and both calibrated sets; the training score comes out with zero error and no worse Brier score |
| Names.FoldIdempotent | tools/build_genealogy_enrichment.py:85-97 | folding particles twice is folding them once |
| Names.FoldConservesTokens | tools/build_genealogy_enrichment.py:85-97 | folding loses and invents no token |
| Names.NormalizeConservesTokens | tools/build_genealogy_enrichment.py:454-473 | a key has the tokens of its name |
| Names.NormalizeIdempotentIff | tools/build_genealogy_enrichment.py:454-473 | normalising a key again leaves it alone if and only if the name has no stray comma |
| Names.StrayCommaMoves | tools/build_genealogy_enrichment.py:454-473 | a name with a stray comma that a second normalisation inverts |
| Names.OrdersAgreeIff | tools/build_genealogy_enrichment.py:454-473 | "given run surname" and "run surname, given" have one key if and only if the run is empty, or all particles before a surname that is none |
| Regime.RegimeTier | tools/vetting_risk.py:616-644 | the worst tier of the windows the band touches, with one reason per window that is not trusted; REVIEW with one reason where the table has no answer |
| Regime.EveryRowTiles | tools/vetting_risk.py:130-279 | every row of the regime table tiles the years from 0 up to 9999 |
| Regime.WindowsStandForYears | tools/vetting_risk.py:616-644 | for any tiling, the worst window touched is the worst tier over all years of the band |
| Regime.WideningNeverImproves | tools/vetting_risk.py:616-644 | widening a band that meets the table never improves its tier |
| Regime.WideningSafeIff | tools/vetting_risk.py:616-644 | no widening of a band improves its tier if and only if the band starts before the end of the table, the last window is not trusted, or the country has no table |
| Regime.WideningImproves | tools/vetting_risk.py:616-644 | a French band past the table is REVIEW, and TRUST when widened by a year |
| VettingRisk.FranceWindowAlone | tools/vetting_risk.py:674-705 | the French window is the only doubt about a band if and only if the band starts in 1810 to 1984 |
| VettingRisk.RecordedCredential | tools/vetting_risk.py:714-721 | a credential is found if and only if the degree names a listed one, and it is the first listed |
| VettingRisk.ClassifyEdge | tools/vetting_risk.py:647-738 | the verdict and its reasons, for every student and advisor; exactly when the tier is RETYPE, SUSPECT and TRUST; it is never better than the regime's, but for the registry lift |
| Verdicts.DatedVerdict | tools/vetting_risk.py:647-738 | the verdict of a doctorate taken in a known country within known years, by the tiers that the regime table gives those years, the credential, the birth years and the registry |
| Verdicts.AmbiguousIsNeverTrusted | tools/vetting_risk.py:583-605 | with several degree countries of which the advisor shares none, or more than one, the edge is never trusted: no guess is made |
| Verdicts.SharedCountryDecides | tools/vetting_risk.py:600-604 | with exactly one that the advisor shares, the verdict is that of a student with that country alone |
| Verdicts.CitizenshipStandsIn | tools/vetting_risk.py:606-613 | citizenship counts as the degree country where there is none, and does not matter where there is one |
| Verdicts.UnknownIsNeverTrusted | tools/vetting_risk.py:616-632 | without a country, or without years, an edge is never trusted |
| Verdicts.DefenceYearDecides | tools/vetting_risk.py:571-580 | with a recorded defence year, thesis and birth years matter only for whether the advisor is younger |
| Verdicts.NextGeneration | tools/vetting_risk.py:649-653 | an undated student with one degree country has the verdict of the years one generation after the advisor's |
| Verdicts.ReasonsAre | tools/vetting_risk.py:616-738 | exactly which reasons a verdict gives |
| VettingRisk.FloorTrustsIff | tools/vetting_risk.py:616-672 | the regime trusts an edge if and only if its country is listed, its band in range, and every year of the band trusted |
| VettingRisk.TrustedEdge | tools/vetting_risk.py:647-738 | an edge ends in TRUST if and only if its era is unambiguous or lifted, and it is not pre-modern, retyped by a credential, or with an advisor born after the student |
| Edges.MergeAdvisorEdges | tools/build_genealogy_enrichment.py:732-788 | each claim goes to the first slot that denotes its advisor, or opens one, in order |
| Edges.CapitalsAreFolded | tools/build_genealogy_enrichment.py:546-560 | a reference to MGP is recognised as Wikidata prints it, with capitals |
| Edges.AbsorbKeepsIdentity | tools/build_genealogy_enrichment.py:757-787 | a slot's QID never changes, it takes up the claim's, its sources grow by exactly the claim's, its rank never falls |
| Edges.IdRefSurvivesIff | tools/build_genealogy_enrichment.py:770-787 | a slot's IdRef survives a claim if and only if the claim does not override it with another one |
| Edges.IdRefIsLost | tools/build_genealogy_enrichment.py:770-787 | two stamped claims after which the first IdRef is gone |
| Edges.IncomingSourcesSurviveIff | tools/build_genealogy_enrichment.py:747-768 | the list an incoming edge carries survives if and only if each entry is its own source or already in the slot |
| MergeRuns.RunFacts | tools/build_genealogy_enrichment.py:647-788 | after any run: the source is on record, the confidence is that source's and the highest on record, and a slot is curated if and only if a curated source is on record |
| MergeRuns.RunNeverMixesQids | tools/build_genealogy_enrichment.py:710-788 | no slot of any run absorbs claims with two different QIDs, and its sources are exactly those of the claims it absorbs |
| Identities.SharedByQid | tools/build_genealogy_enrichment.py:721-723 | in any run of claims that all have QIDs, two share a slot if and only if they have one QID |
| Identities.SharedByIdRef | tools/build_genealogy_enrichment.py:724-726 | in any run of claims with IdRefs alone, if and only if they have one IdRef |
| Identities.SharedByName | tools/build_genealogy_enrichment.py:727-729 | and in any run of claims without identifiers, if and only if their names have one key |
| Identities.RunNeverMixesIdRefs | tools/build_genealogy_enrichment.py:710-788 | no slot of any run of claims without QIDs absorbs two different IdRefs |
| TrustOrder.LeaderIs | tools/build_genealogy_enrichment.py:513-540 | source and confidence of a slot of any run: a human's if one is on record, else a registry's, else a genealogy project's; so no registry on record leaves MGP in the lead |
| TrustOrder.FirstOfKindLeads | tools/build_genealogy_enrichment.py:766-787 | and among the claims of the leading kind it is the first |
| MergeRuns.RunDescribed | tools/build_genealogy_enrichment.py:732-788 | after any run of merges of stamped edges every slot is the fold of the claims that found it as their first match, is described by them, and all slots' claims together are exactly the claims made |
| MergeRuns.RunExtends | tools/build_genealogy_enrichment.py:732-788 | later merges keep every slot, its sources, its QID and its lock, and never lower its rank |
| Retraction.SettledQids | tools/build_genealogy_enrichment.py:1669-1684 | the alias loop leaves a QID in a record if and only if a record that goes into it bears it |
| Retraction.SettledQidsIff | tools/build_genealogy_enrichment.py:1669-1684 | if identifiers tell dates apart, these are exactly the records under the same identifier, unless it collides |
| Retraction.RetractionLastsIff | tools/build_genealogy_enrichment.py:1063-1101 | a retraction by QID survives the alias loop if and only if no other spelling that goes into the student's record lists the QID |
| Retraction.RetractionLasts | tools/build_genealogy_enrichment.py:1063-1101 | whatever identifies the retracted advisor, nothing by that identification comes back through the alias loop unless another spelling that goes into the student's record lists it |
| Retraction.IdRefNeedNotReturn | tools/build_genealogy_enrichment.py:770-787 | two spellings of which one lists an IdRef that is gone after the alias loop |
| Retraction.RetractedAdvisorReturns | tools/build_genealogy_enrichment.py:1063-1101 | two spellings: retracted from one, the advisor comes back from the other |
| Adjudication.RunCuratedIffVerified | tools/build_genealogy_enrichment.py:513-542 | among the slots of any run over stamped claims the curated ones are the verified ones |
| Adjudication.CuratedIffVerifiedIsStable | tools/build_genealogy_enrichment.py:1582-1693 | every stage keeps it so |
| Adjudication.AssertionCurates | tools/build_genealogy_enrichment.py:1131-1150 | then an assertion ends in a curated slot that bears the asserted QID, or the IdRef if no QID was asserted |
| Adjudication.LedgerAffirms | tools/build_genealogy_enrichment.py:1063-1156 | so does every accepted assertion of a ledger, whatever the entries before it |
| Adjudication.IntegrityAffirmsIff | tools/build_genealogy_enrichment.py:949-981 | the integrity pass leaves the student a curated edge to the asserted advisor if and only if such an edge is possible and no earlier edge has its name |
| EdgeIntegrity.KeptHasIff | tools/build_genealogy_enrichment.py:949-981 | whatever is said of an edge, one of which it holds is kept if and only if one of which it holds is possible and the first of its name |
| Adjudication.ReversedEdgeDislodges | tools/build_genealogy_enrichment.py:932-966 | an edge in the opposite direction takes the asserted advisor off the student's list |
| Adjudication.SettledKeepsAffirmed | tools/build_genealogy_enrichment.py:1669-1684 | an assertion that holds of one spelling holds, after the alias loop, under every spelling it goes into, if no edge that goes there is verified without being curated or, for an assertion by IdRef alone, curated without that IdRef |
| Adjudication.ErasureSparesIff | tools/build_genealogy_enrichment.py:1706-1780 | whatever is said of an edge, erasure leaves one of which it holds if and only if it held of one whose advisor is not erased; being curated protects none |
| Standings.ReachedIs | tools/build_genealogy_enrichment.py:757-787 | a slot is curated if and only if it or a claim it absorbed is, has the first QID there was, and the IdRef and name that win |
| Standings.UnitedStandingsAre | tools/build_genealogy_enrichment.py:894-901 | so do the edges of a united record, slot by slot |
| Standings.SettledAffirmsIff | tools/build_genealogy_enrichment.py:1669-1684 | if identifiers tell dates apart, a record affirms an assertion after the alias loop, by QID or by IdRef, if and only if some slot of its spellings' union is curated and the asserted identifier wins there |
| Pipeline.FinalAffirms | tools/build_genealogy_enrichment.py:1582-1696 | an assertion that the integrity pass lets through, and that no record going into the student's contests, is affirmed at the end unless its advisor is erased |
| Pipeline.QidUncontested | tools/build_genealogy_enrichment.py:1582-1696 | an assertion by QID is contested by none, whatever the harvests and the ledger |
| Pipeline.FinalAffirmsIff | tools/build_genealogy_enrichment.py:1582-1696 | if identifiers tell dates apart, a record affirms an assertion at the end if and only if in some slot that is curated the asserted identifier wins, and the advisor whose name wins there is not erased |
| Dislodged.AssertionIsDislodged | tools/build_genealogy_enrichment.py:949-981 | an accepted assertion behind an automated homonym, after which no edge at the end is curated |
| Dislodged.IdRefIsDislodged | tools/build_genealogy_enrichment.py:770-787 | two accepted assertions of one advisor, by two IdRefs on two spellings, that both pass integrity; at the end the spellings have one record, and it does not affirm both |
| Corrections.OutcomesCover | tools/build_genealogy_enrichment.py:1063-1156 | every entry of the ledger is counted under one outcome |
| Ledger.OutcomeIs | tools/build_genealogy_enrichment.py:1107-1155 | what each outcome means in terms of the ledger entry and the student's record; only a retraction and an assertion change the graph |
| Ledger.RetractionIs | tools/build_genealogy_enrichment.py:1125-1131 | a retraction takes exactly the edges to the advisor it names, by QID, else IdRef, else key; all others stay, unchanged and in order, and so do all other records |
| Ledger.RetractionSparesIff | tools/build_genealogy_enrichment.py:1125-1131 | whatever is said of an edge, the student has one of which it holds afterwards if and only if it held of one to another advisor |
| Ledger.AssertionIs | tools/build_genealogy_enrichment.py:1132-1153 | an assertion changes only the first edge to its advisor, or appends one: a verified edge takes up identifiers, any other is minted anew as curated and verified |
| Ledger.EntryKeepsAffirmed | tools/build_genealogy_enrichment.py:1107-1155 | no entry takes away what an assertion affirmed, but a retraction of the same advisor |
| Ledger.LedgerKeepsAffirmed | tools/build_genealogy_enrichment.py:1063-1156 | an accepted assertion holds at the end of the ledger if every later retraction from its student names another advisor by identifier |
| StageOrder.AssertionsStand | tools/build_genealogy_enrichment.py:1582-1596 | so does an assertion with an identifier for any student on record, in a build without MGP too: the strip comes before the corrections |
| Passes.ApplyCorrections | tools/build_genealogy_enrichment.py:1063-1156 | entries act in order, each on the graph the previous ones leave, and are counted by their outcome there; what one entry does is in `Ledger` |
| Relays.SingleClaimIndependentIff | tools/build_genealogy_enrichment.py:604-614 | a single claim counts as independent evidence if and only if its source is not MGP and it does not cite MGP |
| Relays.NoEvidenceIff | tools/build_genealogy_enrichment.py:604-614 | the code finds no evidence for a slot if and only if its claims have no source outside MGP, or just that of the leading claim while the statement that wins cites MGP |
| Relays.LabelRightIff | tools/build_genealogy_enrichment.py:604-620 | for every slot of any run, exactly when it counts as vetted if and only if a claim from outside MGP does not cite it |
| Relays.OwnEvidenceDiscounted | tools/build_genealogy_enrichment.py:604-614 | a source that claims an edge twice, the first time citing MGP, of which nothing is counted |
| Relays.TwoRelaysVetEachOther | tools/build_genealogy_enrichment.py:604-620 | two claims that both cite MGP, and a label that calls them vetted |
| Relays.RegistryDiscountedForRelay | tools/build_genealogy_enrichment.py:604-614 | a registry's claim and a relay that corroborates it, of which the relay is counted |
| Vetting.VetEdges | tools/build_genealogy_enrichment.py:588-644 | each edge is labelled by its own tier, and the counters advance with each labelled edge |
| Vetting.TallyFacts | tools/build_genealogy_enrichment.py:577-644 | the counters balance, and count the labelled edges, the vetted ones and those flagged in the end |
| Vetting.TallyTiers | tools/build_genealogy_enrichment.py:577-644 | and the edges left to each tier |
| Vetting.VetKeepsClaim | tools/build_genealogy_enrichment.py:571-644 | a label changes nobody's name, provenance or identifiers, and lowers confidence only for an unvetted suspect edge |
| Labels.VetIs | tools/build_genealogy_enrichment.py:588-644 | what a label is: a settled edge or one not from MGP stays as it is; one with independent sources names exactly those; any other has its tier, is flagged unless trusted, cleared of a dispute if trusted, disputed if to be retyped, and one step less confident if suspect |
| Passes.MarkVettingStatus | tools/build_genealogy_enrichment.py:571-645 | labels every record's edges; the counters balance and are the numbers of labelled, vetted and flagged edges and of those left to each tier, over the whole graph |
| EdgeIntegrity.KeptSurvivors | tools/build_genealogy_enrichment.py:964-980 | each key that is neither self nor mutual survives once, at its first edge, in order; edges before are edges after plus the counters |
| EdgeIntegrity.QidsKeptIff | tools/build_genealogy_enrichment.py:974-978 | the QIDs of dropped duplicates are all kept if and only if they are all one |
| EdgeIntegrity.ThirdQidIsLost | tools/build_genealogy_enrichment.py:974-978 | three QIDs under one name, of which the third is on no edge afterwards |
| EdgeIntegrity.CleanList | tools/build_genealogy_enrichment.py:949-981 | the loop over one record's edges, with the mutual pairs computed beforehand |
| EdgeIntegrity.CleanRecordAdvises | tools/build_genealogy_enrichment.py:922-982 | a record still lists an advisor if and only if it did and the pair is neither a self-loop nor mutual |
| EdgeIntegrity.CleanRecordCounts | tools/build_genealogy_enrichment.py:922-982 | a record's named edges before are its edges after plus its counters, and no key is left twice |
| EdgeIntegrity.CleanGraphFacts | tools/build_genealogy_enrichment.py:922-982 | afterwards there is no self-loop, no mutual pair and no advisor listed twice anywhere |
| EdgeIntegrity.CleanGraphIdempotent | tools/build_genealogy_enrichment.py:922-982 | a second application changes nothing and counts nothing |
| StageOrder.CountersAre | tools/build_genealogy_enrichment.py:966-973 | the first two counters are the numbers of edges to the record itself and to partners that refer back |
| StageOrder.DuplicatesAre | tools/build_genealogy_enrichment.py:974-978 | the third is the number of all other named edges that go |
| Passes.ApplyEdgeIntegrity | tools/build_genealogy_enrichment.py:922-982 | the pass over the dictionary, with its three counters |
| Passes.CountersAddUp | tools/build_genealogy_enrichment.py:922-982 | over the whole graph, edges before are edges after plus the three counters |
| Passes.SecondPassCountsNothing | tools/build_genealogy_enrichment.py:922-982 | on its own result the pass counts nothing |
| Passes.StripMgpDerivedEdges | tools/build_genealogy_enrichment.py:985-1007 | keeps exactly the edges that do not trace to MGP, and counts those it drops |
| Labels.StripIs | tools/build_genealogy_enrichment.py:985-1007 | the strip takes exactly the edges whose own source, source list or cited statement reaches MGP; all others stay, unchanged and in order |
| Stages.StripRemovesMgp | tools/build_genealogy_enrichment.py:985-1007 | afterwards no edge traces to MGP |
| Stages.StageKeeps | tools/build_genealogy_enrichment.py:1582-1693 | any property of edges that absorbing, labelling and noting keep, and that asserted edges have, is kept by every stage |
| Stages.NoMgpBuild | tools/build_genealogy_enrichment.py:1586-1693 | after the strip, no run of later stages brings back an edge that traces to MGP |
| Stages.NothingToVet | tools/build_genealogy_enrichment.py:571-645 | in such a build the vetting stage changes nothing |
| Stages.ProvenanceKept | tools/build_genealogy_enrichment.py:1582-1693 | if every edge has source and confidence, I4 holds after any run of stages |
| Stages.StageKeepsI5 | tools/build_genealogy_enrichment.py:1582-1693 | every stage but a correction keeps every advisor a node |
| Stages.SettledKeepsI5 | tools/build_genealogy_enrichment.py:1669-1684 | so does the whole alias loop |
| Stubs.CreateStubs | tools/build_genealogy_enrichment.py:1634-1657 | every referenced advisor without a record gets a stub with the longest display form seen, and then every advisor is a node |
| StubForms.StubIs | tools/build_genealogy_enrichment.py:1633-1657 | records stay as they are; each advisor without a record gets one with its longest display form, the first of that length, and a source that says it is a stub; nothing else is added |
| StageOrder.StubbedIsClean | tools/build_genealogy_enrichment.py:1582-1657 | whatever the ledger asserts, when the stubs are in there is no self-loop, no mutual pair and no duplicate: integrity runs on the corrected graph |
| StageOrder.StubbedIsLabelled | tools/build_genealogy_enrichment.py:1596-1657 | and every edge from MGP that no human settled has a label that is up to date: vetting sees the corrected edges |
| AliasMerge.BeforeIsStrictWeak | tools/build_genealogy_enrichment.py:830-844 | the merge rank orders records consistently |
| AliasMerge.BeforeIsTotal | tools/build_genealogy_enrichment.py:830-844 | of two records under different keys exactly one sorts before the other |
| AliasMerge.KeyTextInjective | tools/build_genealogy_enrichment.py:830-844 | different keys are different texts |
| AliasMerge.UnitedPrecedence | tools/build_genealogy_enrichment.py:874-900 | conflicting fields of a united record come from a member that no other outranks |
| Precedence.BeforeIs | tools/build_genealogy_enrichment.py:820-844 | the merge rank: a record with a QID or IdRef first, then one with a source that is no stub's, then one with more entries, then the lesser key |
| Precedence.UnitedPrimary | tools/build_genealogy_enrichment.py:872-891 | so the conflicting fields of a united record come from a member with an identifier if any has one; among those from one that is no stub, if any; among those from one with the most entries, the least key on ties |
| Precedence.UnitedField | tools/build_genealogy_enrichment.py:881-891 | and any other field comes from a member that has it and that no other with the field outranks |
| Precedence.UniteAllInstitution | tools/build_genealogy_enrichment.py:892-897 | the institution of united records is the longest, and the first of that length |
| Precedence.UniteAllSource | tools/build_genealogy_enrichment.py:903-910 | their source takes up each part of each once |
| Precedence.SettledField | tools/build_genealogy_enrichment.py:1669-1684 | after the alias loop each field is that of a spelling that has it and that no other with the field outranks, if identifiers tell dates apart |
| Precedence.SettledRest | tools/build_genealogy_enrichment.py:1669-1684 | and the institution is a longest one, and the source has the parts of all spellings |
| AliasMerge.UnitedCovers | tools/build_genealogy_enrichment.py:877-919 | of what a member has, its fields, source parts, an institution no shorter, its edges' QIDs and its edges' own sources do not go missing |
| AliasMerge.UniteAllSources | tools/build_genealogy_enrichment.py:877-919 | a united record has on record exactly the sources its first record has and those that edges of the others have as their own |
| AliasMerge.UniteAllQids | tools/build_genealogy_enrichment.py:877-919 | it bears exactly the QIDs its members bear |
| UnionTraces.SourcesSurviveIff | tools/build_genealogy_enrichment.py:747-755 | every source on record in a group survives if and only if the later records' lists add nothing to the first record and the later edges' own sources |
| SlotHistory.WonIs | tools/build_genealogy_enrichment.py:757-787 | a slot's name, IdRef and cited statement are those of the last overriding claim that brings one, or else its own, or else the first brought |
| SlotHistory.UnitedFieldsAre | tools/build_genealogy_enrichment.py:894-901 | so the edges of a united record have, slot by slot, what wins among the records' edges |
| SlotHistory.UnitedHoldsIff | tools/build_genealogy_enrichment.py:894-901 | a united record has an IdRef if and only if it wins in some slot |
| UnionTraces.UnitedTracesIff | tools/build_genealogy_enrichment.py:894-901 | a united record reaches MGP if and only if a slot has MGP on its list, absorbs a claim of MGP's own, or ends up citing it |
| UnionTraces.UnionDropsTheTrace | tools/build_genealogy_enrichment.py:747-755 | an edge that traces to MGP, and no longer does once united into a record without advisors |
| AliasMerge.MergePassShrinks | tools/build_genealogy_enrichment.py:847-919 | a pass never splits equal records, and one that unites a group leaves fewer distinct records |
| AliasMerge.MergePassIdempotent | tools/build_genealogy_enrichment.py:847-919 | run again on its own result the pass unites nothing |
| AliasMerge.PassesNeeded | tools/build_genealogy_enrichment.py:1669-1684 | the loop ends without its cap, after no more passes than there are distinct records |
| AliasMerge.SettledFacts | tools/build_genealogy_enrichment.py:1669-1684 | on exit every record has the identifier its content derives, and keys under one identifier hold one record unless their canonical forms differ |
| Convergence.UnitedKeepsId | tools/build_genealogy_enrichment.py:1663-1668 | if identifiers tell dates apart, a united record derives the identifier it was united by |
| Convergence.TwoPassesSuffice | tools/build_genealogy_enrichment.py:1663-1684 | then the second pass finds nothing to unite, and one pass is the whole loop |
| Convergence.NothingCollides | tools/build_genealogy_enrichment.py:1663-1684 | if identifiers tell apart what they are derived from, each stands for one canonical form in the end |
| OnePerson.OneRecordIff | tools/build_genealogy_enrichment.py:1663-1684 | if identifiers tell persons apart, two keys hold one record after the alias loop if and only if their records agreed on canonical form, birth and death year |
| Kinship.MergeMakesSelfLoop | tools/build_genealogy_enrichment.py:1586-1684 | a cleaned graph of two spellings that the alias loop gives a self-loop and a cycle |
| Kinship.MergeMakesDuplicate | tools/build_genealogy_enrichment.py:1586-1684 | a cleaned graph of two spellings in which it lists one advisor twice |
| Kinship.SettledKeepsI1 | tools/build_genealogy_enrichment.py:1586-1684 | if no record refers to a spelling of its own person, it makes no self-loop |
| Kinship.SettledKeepsI2 | tools/build_genealogy_enrichment.py:1586-1684 | if no walk of references closes when spellings of one person count as one, it makes no cycle |
| Kinship.SettledI1Iff | tools/build_genealogy_enrichment.py:1669-1684 | there is no self-loop afterwards if and only if no name that wins for a record has its own key |
| Kinship.SettledI2Iff | tools/build_genealogy_enrichment.py:1669-1684 | there is no cycle afterwards if and only if no walk along winning names closes |
| Kinship.SettledI3Iff | tools/build_genealogy_enrichment.py:1669-1684 | no advisor is listed twice afterwards if and only if no two names that win for a record have one key |
| UnionNames.UnitedNamesAre | tools/build_genealogy_enrichment.py:894-901 | the edges of a united record go by the names that win in its slots |
| AliasPasses.UniteGroup | tools/build_genealogy_enrichment.py:874-913 | unites a group's records in the order of precedence |
| AliasPasses.MergeAliasGroups | tools/build_genealogy_enrichment.py:847-919 | unites each group that shares an identifier and one form, whatever the order of the groups, and counts the groups and their keys; who wins there is in `Precedence` |
| AliasPasses.CollapseAliases | tools/build_genealogy_enrichment.py:1669-1684 | reaches the fixed point if and only if at most eight passes are needed, and otherwise stops the build; it does if identifiers tell dates apart, or up to eight distinct records |
| AliasPasses.BuildIndex | tools/build_genealogy_enrichment.py:1686-1693 | the first key of each identifier, in order; total and right |
| Aliases.NoCollisionNoLoss | tools/validate_genealogy_integrity.py:184-213 | if every record has a canonical form and I7 finds no collision, aliases are identical and I8 finds no loss |
| Aliases.AliasesIdenticalIff | tools/build_genealogy_enrichment.py:1669-1684 | once settled, aliases are identical if and only if no identifier is shared by two canonical forms |
| Aliases.SettledCanonical | tools/build_genealogy_enrichment.py:865-919 | if every record has a canonical form, every record keeps one through the alias loop |
| Suppression.ErasureIsComplete | tools/build_genealogy_enrichment.py:1706-1780 | a listed identity is gone under every spelling, nobody lists it as an advisor under any, and the index does not know it |
| Erasure.LeftIff | tools/build_genealogy_enrichment.py:1735-1757 | a record is left if and only if no request names its key or identifier, or those of a record under the same identifier |
| Erasure.IndexedIff | tools/build_genealogy_enrichment.py:1751-1757 | an identifier is left in the index, as it was, if and only if no record that goes carries it |
| Erasure.ReferencesLeft | tools/build_genealogy_enrichment.py:1758-1774 | a record that is left keeps all its advisors but those that a request names, by key or by person, unchanged and in order |
| Erasure.ErasureCommutes | tools/build_genealogy_enrichment.py:1686-1696 | if every record has an identifier, erasing from the index gives the first-key index of the erased graph |
| Suppression.SuppressIdempotent | tools/build_genealogy_enrichment.py:1706-1780 | a second run changes nothing |
| Suppression.KeepsAllInvariants | tools/build_genealogy_enrichment.py:1706-1780 | from a merged graph with its index, erasure keeps every invariant of the gate |
| AliasPasses.ApplySuppressionList | tools/build_genealogy_enrichment.py:1706-1780 | the three sweeps, with the numbers of records removed and references scrubbed; the rest stays in order; who goes is in `Erasure` |
| Build.Genealogy.Suppress | tools/build_genealogy_enrichment.py:1695-1696 | erasure on the dictionary and the index in place |
| Build.Genealogy.RepairEdges | tools/build_genealogy_enrichment.py:1582-1657 | strip, corrections, integrity, vetting and stubs in this order, the stubs with the longest display forms; then every advisor is a node |
| Build.Genealogy.Finish | tools/build_genealogy_enrichment.py:1582-1696 | the build settles if identifiers tell dates apart, and then ends with the stages in order; every advisor is a node, the index is total and right, aliases are identical wherever identifiers do not collide, every erasure request is honoured, the index names the first key of every identifier unless one is empty; and, under the conditions of `Pipeline.Promises` on harvests and identifiers, I1 to I4, I6, one form per identifier, no return of what is retracted, the lasting of assertions and exactly which hold, and no edge that reaches MGP in a build without it; from a sound start all eight invariants hold together and the graph loads whole |
| Pipeline.NoMgpToTheEnd | tools/build_genealogy_enrichment.py:1582-1696 | a build without MGP has no edge that reaches it, over the stages in the order of the build |
| Pipeline.ProvenanceToTheEnd | tools/build_genealogy_enrichment.py:1582-1696 | if every harvested edge has source and confidence, I4 holds at the end |
| Pipeline.CanonicalToTheEnd | tools/build_genealogy_enrichment.py:1582-1696 | if every harvested record has a canonical form, every record has one at the end |
| Pipeline.OneFormAtTheEnd | tools/build_genealogy_enrichment.py:1582-1696 | if identifiers tell apart what they are derived from, each stands for one form at the end |
| Pipeline.NoLoopAtTheEnd | tools/build_genealogy_enrichment.py:1582-1696 | if no record refers to a spelling of its own person, I1 holds at the end |
| Pipeline.NoCycleAtTheEnd | tools/build_genealogy_enrichment.py:1582-1696 | if no walk of references closes when spellings of one person count as one, I2 holds at the end |
| Pipeline.NoDuplicateAtTheEnd | tools/build_genealogy_enrichment.py:1582-1696 | if for no record two names with one key win, I3 holds at the end |
| Pipeline.FinalQids | tools/build_genealogy_enrichment.py:1582-1696 | a QID in a record at the end was there after the ledger, under some spelling of the person |
| Pipeline.FinalTest | tools/build_genealogy_enrichment.py:1582-1696 | a test that every stage keeps, such as the absence of a QID, an IdRef or a name, holds of a record's edges at the end if after the ledger it held under all spellings of the person |
| Outcome.SoundBuildPasses | tools/build_genealogy_enrichment.py:1582-1696 | if harvested edges have source and confidence, harvested records a form, identifiers tell apart what they are derived from and are not empty, no walk of references closes when spellings of one person count as one, and no two names with one key win for a record, then the final graph with its index passes I1 to I8, and alias records are identical |
| Outcome.SoundBuildLoads | tools/load_memgraph_from_enrichment.py:156-330 | such a graph, in whatever order a file lists it, is loaded without loss, without dangling rows and without cycles |
| Outcome.IndexedToTheEnd | tools/build_genealogy_enrichment.py:1686-1696 | at the end, too, the index names the first key of every identifier, if none is empty |
| Pipeline.SuppressHonours | tools/build_genealogy_enrichment.py:1706-1780 | each request by name leaves no such key and no such advisor, each request by identifier no such identifier |
| CycleFinder.FindCycle | tools/validate_genealogy_integrity.py:47-76 | terminates; what it returns is a closed walk that meets no vertex twice before it closes, and it returns none if and only if there is no closed walk |
| CycleFinder.BackArcClosesCycle | tools/validate_genealogy_integrity.py:70-71 | a grey successor of the top vertex closes a cycle along the path |
| CycleFinder.RankedIsAcyclic | tools/validate_genealogy_integrity.py:64-68 | the order in which vertices finish excludes closed walks |
| Validator.CheckEdges | tools/validate_genealogy_integrity.py:83-136 | I1 to I5 are each reported if and only if they fail |
| Validator.FindConflict | tools/validate_genealogy_integrity.py:160-213 | two records under one identifier differ if and only if some identifier has gathered two shapes |
| Validator.CheckIdentifiers | tools/validate_genealogy_integrity.py:138-227 | I6 to I8 are each reported if and only if they fail |
| Validator.Validate | tools/validate_genealogy_integrity.py:79-229 | a check is reported if and only if its invariant fails, and a clean run means all eight hold |
| Faults.LoopsFound | tools/validate_genealogy_integrity.py:94-95 | I1 fails if and only if an edge names its own record |
| Faults.PathsFound | tools/validate_genealogy_integrity.py:112-114 | I2 fails if and only if some path along edges between nodes ends where it began |
| Faults.RepeatsFound | tools/validate_genealogy_integrity.py:96-98 | I3 fails if and only if two edges of a record name one advisor |
| Faults.UnsourcedFound | tools/validate_genealogy_integrity.py:99-100 | I4 fails if and only if an edge with a name lacks source or confidence |
| Faults.DanglingFound | tools/validate_genealogy_integrity.py:101-104 | I5 fails if and only if an edge names a key that is no node |
| Faults.BlanksFound | tools/validate_genealogy_integrity.py:131-137 | I6 fails if and only if a record lacks a form or an identifier |
| Faults.FormsFound | tools/validate_genealogy_integrity.py:148-164 | I7 fails if and only if records under one identifier state different forms, or an entry of the index is no node |
| Faults.ShapesFound | tools/validate_genealogy_integrity.py:184-227 | I8 fails if and only if records under one identifier differ in QID, institution or in whether they list anybody, or the index lacks an identifier |
| Loader.SameNodeIff | tools/load_memgraph_from_enrichment.py:186-197 | two keys are loaded as one node if and only if they are one key or share an identifier; resolving twice is resolving once |
| Loader.OneNodePerIdentity | tools/load_memgraph_from_enrichment.py:194-197 | every record has exactly one loaded node that is it or shares its identifier |
| Loader.IndexNamesTheNodeIff | tools/load_memgraph_from_enrichment.py:178-189 | the index built over one listing names the node resolved over another, for every record, if and only if the first key of each identifier is the same in both |
| Loader.SortedOrderDisagrees | tools/load_memgraph_from_enrichment.py:178-189 | two spellings inserted the other way round than they sort, for which they differ |
| Loader.NothingLostIff | tools/load_memgraph_from_enrichment.py:278-320 | no spelling's edge is lost if and only if the node's own record gives an equal row for it |
| Loader.IdenticalAliasesLoseNothing | tools/load_memgraph_from_enrichment.py:278-320 | if alias records are identical, the loaded edges are the image of all edges |
| Loader.RowsEndAtNodes | tools/load_memgraph_from_enrichment.py:278-288 | if I5 holds, every loaded edge ends at a loaded node |
| Loader.LoadingClosesNoCycle | tools/load_memgraph_from_enrichment.py:186-197 | if alias records are identical and I2 holds, no walk over loaded edges closes: collapsing spellings makes no cycle and no self-loop |
| Loader.CleanGraphLoadsWhole | tools/load_memgraph_from_enrichment.py:156-330 | a graph with identical alias records in which I2 and I5 hold is loaded without loss, without dangling edges and without cycles |
| LoaderGap.CleanGateLosesAnEdge | tools/load_memgraph_from_enrichment.py:170-185 | a graph that meets all eight invariants, loses an edge on loading and gains a cycle |
| LoadRun.Load | tools/load_memgraph_from_enrichment.py:156-330 | an empty file stops it, a dry run counts, and otherwise the batches flatten to one row per node, each once, and the nodes' edge rows, in order, with right counts |
| Batches.Outbox.Flush | tools/load_memgraph_from_enrichment.py:227-241 | sends and counts what waits, in one batch, if anything does |
| Batches.Outbox.Add | tools/load_memgraph_from_enrichment.py:243-258 | a row joins the rows sent and waiting; a full batch is sent |
| Batches.Outbox.Close | tools/load_memgraph_from_enrichment.py:259-259 | what was sent flattens to all rows; every batch is full but the last, and none is empty |
| Batches.CutIsUnique | tools/load_memgraph_from_enrichment.py:225-325 | rows and size alone decide how rows are cut |
| Database.BatchesDoNotMatter | tools/load_memgraph_from_enrichment.py:98-122 | however rows are cut into batches, the database ends up as after all rows in order |
| Database.ReloadIsIdempotent | tools/load_memgraph_from_enrichment.py:14-16 | loading the same rows again changes nothing, whatever the database held |
| Database.LastRowWins | tools/load_memgraph_from_enrichment.py:110-122 | an edge has the properties of the last row for its pair, or those it had |
| Database.FreshLoad | tools/load_memgraph_from_enrichment.py:98-122 | into an empty database: exactly the graph's nodes, and an edge exactly between the pairs some row joins |
| LoadedContent.NodeCarries | tools/load_memgraph_from_enrichment.py:98-108 | after a load each node of the file has, wherever the database had nothing, what its record has, and otherwise what it had |
| LoadedContent.EdgeCarries | tools/load_memgraph_from_enrichment.py:278-320 | and each edge from such a node has what the last of the record's edges to that target has; where there is none it is as it was |
| LoadedContent.LoadStaysAnchored | tools/load_memgraph_from_enrichment.py:110-122 | if every edge joined two nodes before a load, every edge does after it, whatever the rows |
| LoadedContent.CreatedIs | tools/load_memgraph_from_enrichment.py:110-114 | a target that was no node has nothing but its name, as the first row to it gives it |
| Database.NothingLeaves | tools/load_memgraph_from_enrichment.py:98-122 | a load removes no node and no edge, and an edge it has no row for stays as it is |
| Database.CorrectionArrivesIff | tools/load_memgraph_from_enrichment.py:98-108 | a newer birth year reaches a node if and only if the node had none or the same |
| Database.CorrectedYearIsRefused | tools/load_memgraph_from_enrichment.py:98-108 | a birth year corrected from 1900 to 1901 that does not arrive |
| Lineage.PathsAreWalks | static/app.js:869-887 | under any path of ancestors, the root-to-node paths are exactly the walks with distinct vertices, except that the last may repeat |
| Lineage.HierarchyPaths | static/app.js:869-889 | in the whole tree a node is marked if and only if its own id occurs above it, and every simple walk is drawn |
| Lineage.EdgeKeysCollideIff | static/app.js:846-848 | two edges share a key if and only if they are equal, or one source continues the other past a separator that the other target holds too |
| LineageTables.TargetsAre | static/app.js:852-861 | the children of a vertex are the targets of its edges, in order and with repeats |
| LineageTables.LastStateIs | static/app.js:862-868 | the state of a pair shows the last edge between the two: disputed, unverified unless disputed, the cited statement before the source |
| LineageTables.LastUnderKeyIs | static/app.js:846-868 | and the state under a key that of the last edge whose ends, joined by the separator, make the key |
| Lineage.StatesRightIff | static/app.js:859-866 | lookups are right under all vetting states if and only if different edges have different keys |
| Lineage.SeparatorFreeSources | static/app.js:846-885 | if no source holds the separator, every child carries the state last recorded for its own edge |
| Lineage.EdgesToHierarchy | static/app.js:850-890 | terminates on every edge list, with the tree of the rows above, each child with the state last recorded under its key |
| Hashcash.LeadingZeroBits | static/app.js:63-71 | terminates, with the number of leading zero bits of the digest as an integer |
| Hashcash.ThresholdIff | static/app.js:72-72 | at least that many leading zero bits if and only if the integer is below the power of two |
| Hashcash.Passes | static/app.js:61-72 | a stamp passes if and only if its digest, read big-endian, is below the target |
| Hashcash.Mine | static/app.js:43-77 | after any number of rounds the search has returned the least counter that passes, if that lies in those rounds, and otherwise none of their counters passes; without a number of bits it takes 18 |
| ThesisDedup.SameWorkSymmetric | scripts/data/fetch_sudoc_thesis_types.py:193-215 | the near-duplicate test does not depend on the order of its arguments |
| ThesisDedup.TitleTokens | scripts/data/fetch_sudoc_thesis_types.py:147-165 | the content words of a title, with the plural folded |
| ThesisTests.TokensAre | scripts/data/fetch_sudoc_thesis_types.py:147-165 | a content word is a word of the title, of four letters or more without its plural s, that is not among those left out |
| ThesisTests.SameWorkIff | scripts/data/fetch_sudoc_thesis_types.py:193-215 | years at most three apart; short titles with the same words, of others at most 15 in 100 words of the shorter missing from the longer |
| ThesisTests.ContainedIsSame | scripts/data/fetch_sudoc_thesis_types.py:193-215 | a title of three words or more that another contains is the same work, given close years |
| ThesisDedup.DedupTheses | scripts/data/fetch_sudoc_thesis_types.py:222-232 | each record joins the first cluster with a near-duplicate; of each cluster the most specific record is kept, the first of these; members of a cluster are connected by a chain of near-duplicates; the length lies between the number of components and that of the input |
| ThesisTests.KeptStatesDegree | scripts/data/fetch_sudoc_thesis_types.py:218-232 | a cluster keeps its first record that states a degree, or its first if none does |
| ThesisDedup.BridgeIsSplit | scripts/data/fetch_sudoc_thesis_types.py:222-232 | three theses that one chain connects and the greedy pass splits |
| SingleLink.NeverOverMerges | scripts/data/fetch_sudoc_thesis_types.py:222-232 | for any symmetric test, records in one cluster are connected |
| SingleLink.OpenersAre | scripts/data/fetch_sudoc_thesis_types.py:226-231 | exactly the records without an earlier near-duplicate open clusters |
| SingleLink.FirstFitIsUnique | scripts/data/fetch_sudoc_thesis_types.py:222-232 | each record goes to the first cluster with a near-duplicate, or opens the next; this leaves one possible clustering |
| SingleLink.AtLeastComponents | scripts/data/fetch_sudoc_thesis_types.py:222-232 | pairwise unconnected records are in different clusters, so there are at least as many clusters as components |
| SingleLink.ComponentsIff | scripts/data/fetch_sudoc_thesis_types.py:222-232 | the clusters are the connected components if and only if no record bridges two clusters |

## Left out

- Harvesting, HTTP, XML, SPARQL, files, JSON, the database driver with its transactions and schema statements, progress output and dates: the model starts from the data they hand over.
- Floating point: confidences, means and scores are exact reals, and 0.85 is 17/20.
- Unicode normalisation, regular expressions, parenthesis stripping and the splitting of text into tokens: names and titles are clean tokens.
- SHA-256 and the identifier function: digests and identifiers are unspecified functions.
- The random shuffle of cross-validation: the shuffled order is a parameter.
- BucketScore.EceBrierOnBuckets: confidences at or below -1.1, for which the list index of the source fails; the detector clamps to [0, 1].
- Case folding beyond ASCII: `Strings.Lower` leaves other letters alone, which matters to no letter of the MGP reference; a credential spelled with the Kelvin sign or a dotted capital I would differ.
- Advisor entries that are bare strings, and names that are only white space: edges are records with tokens.
- Object prototypes: ids that name a property every JavaScript object inherits would be found in the dictionaries of the tree builder.
- The `caveats`, `country_basis`, `era_basis` and `proposed_relation` texts of a vetting verdict, and the list of institutions that route a German degree to East Germany, which is a flag of the person.
- The merging of harvests before the strip stage: its outcome is the graph a build object starts from.
- `apply_sudoc_evidence`, which runs between integrity and vetting (lines 1604 to 1614): it adds registry fields to records, which the tier function reads.
- The tier in `mark_vetting_status` is a parameter function of record and edge there; `VettingRisk` models the classifier on its own.
- The number of failures behind each reported check.
- In-place sharing of lists between records: each record's list is a value, as after the deep copies of the source.
- The order in which missing stubs are added, and in which the gate and the alias merge visit groups, is arbitrary: the source iterates over sets or the outcome does not depend on it.
- `+` inside a part of a joined `Source` text: sources are lists of parts.
- Validator.Validate: says which checks are reported, not the text of a report or the example it names.
- Hashcash.Mine: runs for a number of rounds, since the source searches for ever if no counter solves the puzzle.
- LoadRun.Load: sends batches to a list; failed transactions, which are rolled back and stop the load, are not modelled.
- Stages.StageKeepsI5: leaves out corrections, which may assert an advisor without a record; stub creation, which comes after them, restores the invariant.
- The rest of the web page, the reports, audits and benchmarks, surname tables and code generators: plumbing or finite data.
