# Covert-channel detection — a verified model of the detection core

The system watches network traffic for covert timing channels. In such a
channel, information is hidden in the delays between packets, the
inter-packet delays or IPDs. The pipeline has five stages:

- **Preprocessing.** A capture is split into per-flow IPD tables, then the
  IPD series is cleaned.
- **Feature extraction.** Each flow's IPD column is cut into overlapping
  windows. For each window the extractor computes descriptive statistics,
  or statistical-test features against a baseline.
- **Scoring.** Each window is scored by three signals: a classifier
  probability, a suspicion score from KS / Anderson–Darling /
  Jensen–Shannon tests, and an isolation-forest anomaly risk rescaled
  min-max into (0, 100].
- **Fusion.** The three signal tables are joined on (flow, window_start,
  window_end) and weighted 50/30/20 into a final risk. The risk is labelled
  Normal / Suspicious / Likely Covert and explained by the signals that
  fired.
- **Real time.** A packet-driven detector keeps per-flow timestamp buffers.
  It scores every full window of 40 timestamps, alerts from risk 60 and
  blocks the source address from risk 70, at most once per address. Two
  simpler live loggers record per-flow delays.

The model has one Dafny module per source file, plus `Common`. `Common`
holds sums, means, min/max, successive differences, a stable sort, decimal
rendering of naturals and the library stand-ins.

- Pure code (fusion, statistical tests, feature functions, flow splitting,
  IPD cleaning, risk rescaling) is modelled as datatypes, functions and
  lemmas.
- The extraction loops are methods with loop invariants. Each is proved
  equal to a specification function.
- Each packet handler that mutates module-level dictionaries or sets is a
  class. The class's fields are those dictionaries and sets. Its methods
  state the whole new state.

Floating-point values are modelled as `real`. The numeric library routines
are function-valued fields of `Common.Numerics`:

- sqrt;
- the density histogram;
- entropy;
- the |rfft|² power spectrum.

`Numerics.Sound()` gives them only the facts the proofs use:

- sqrt is 0 at 0, non-negative, and positive on positive arguments;
- histograms have the requested number of non-negative bins;
- the power spectrum has n/2+1 non-negative entries.

The following become parameters:

- the classifier (`predict`);
- the firewall command's outcome;
- the capture clock (`now`);
- the KS, Anderson–Darling and Jensen–Shannon tests;
- the random jitter vector.

Where the design description and the code differ, the model follows the
code:

- **Real-time timestamp buffers are not bounded.** The design describes a
  bounded ring. The code appends to an unbounded list and scores only its
  last 40 entries (live/realtime_detector.py:140-145).
- **Real-time final risk is the classifier's probability times 100.** It is
  not the fused formula. The statistical and forest columns of an alert are
  proxies computed from the entropy features
  (live/realtime_detector.py:158-162).
- **A failed firewall command does not mark the address as blocked.** The
  design says the flow stays in its blocked state. In the code, the address
  is added to the blocked set only when the command succeeds, so a later
  window issues the command again (live/realtime_detector.py:100-105).
- **The third TCP branch (SSL) can never be taken.** It tests the same
  ports as the HTTPS branch before it (live/realtime_detector.py:58-61).
  `RealtimeDetector.DetectProtocol` states that SSL is never returned.

## Model

| member | source | states |
|---|---|---|
| RiskEngine.FinalRisk | fusion/risk_engine.py:84-89 | the 0.5/0.3/0.2 weighted risk lies between the smallest and largest input, so inputs in [0,100] give a risk in [0,100] |
| RiskEngine.FinalRiskMonotone | fusion/risk_engine.py:84-89 | raising any input with the others fixed never lowers the fused risk |
| RiskEngine.Label | fusion/risk_engine.py:91-98 | Normal iff score < 30, Suspicious iff 30 <= score < 60, Likely Covert iff score >= 60; boundaries take the higher band |
| RiskEngine.LabelMonotone | fusion/risk_engine.py:91-98 | a higher score never gets a lower band |
| RiskEngine.Reasons | fusion/risk_engine.py:105-114 | each reason is present iff its signal is strictly above 70 / 40 / 60, only these three occur, and they occur in classifier, statistics, forest order |
| RiskEngine.JoinWith | fusion/risk_engine.py:116 | the join of no parts is empty and a non-empty join starts with the first part |
| RiskEngine.Explain | fusion/risk_engine.py:104-116 | the explanation is "No strong anomaly detected" iff no signal passes its threshold, otherwise the reasons joined with "; " |
| RiskEngine.CovertHasReason | fusion/risk_engine.py:84-116 | with no reason firing the fused risk is at most 59, so a Likely Covert row always has a reason |
| RiskEngine.Matches | fusion/risk_engine.py:74-82 | the pairs of one left row with every right row of the same key, and only those |
| RiskEngine.Join | fusion/risk_engine.py:74-82 | the inner join holds a pair exactly when both rows come from their tables and their keys agree |
| RiskEngine.FuseScores | fusion/risk_engine.py:73-101 | one fused row per row of the two inner joins |
| RiskEngine.FuseScoresKeys | fusion/risk_engine.py:74-82 | a window key is in the fused table iff it is in all three input tables |
| RiskEngine.FuseScoresRows | fusion/risk_engine.py:73-101 | every fused row's scores come from rows of the three tables with its key, and its final risk and decision are the weighted formula and its label |
| RiskEngine.JoinedRowWithKey | fusion/risk_engine.py:74-82 | a key present in all three tables has a joined row |
| StatTests.SuspicionScore | stats/stat_tests.py:68-84 | the score is at most 100, non-negative for non-negative statistics, and at most 60 when the KS p-value is at least 0.05 |
| StatTests.SuspicionCapRedundant | stats/stat_tests.py:74-84 | the three caps 40 + 25 + 35 sum to 100, so the final cap never changes the score |
| StatTests.SuspicionPValueGate | stats/stat_tests.py:75-76 | when the KS test does not reject, the KS statistic has no influence |
| StatTests.SuspicionMonotone | stats/stat_tests.py:68-84 | for a fixed p-value, larger statistics never lower the score |
| StatTests.EffectiveBaseline | stats/stat_tests.py:27-31 | a given baseline is used as is; otherwise the baseline is the first half of the window |
| StatTests.ComputeStatScores | stats/stat_tests.py:16-39 | windows under 10 IPDs score 0; otherwise the score is at most 100, non-negative for a non-negative KS statistic, and exactly 100 iff the KS statistic is at least 1 |
| StatTests.SelfBaselineNonEmpty | stats/stat_tests.py:24-29 | a scored window's self-baseline holds at least 5 IPDs |
| StatTests.NormalizeHist | stats/stat_tests.py:44-47 | the normalised histogram has 20 strictly positive bins summing to 1 |
| StatTests.NormalizedSumsToOne | stats/stat_tests.py:45-47 | bins lifted by 1e-9 have a positive total, and dividing by it gives a vector summing to 1 |
| StatFeatureExtractor.Clamp | features/stat_feature_extractor.py:40 | a slice bound, counted from the end when negative, is clamped into [0, len] and left alone when already inside |
| StatFeatureExtractor.PySlice | features/stat_feature_extractor.py:40 | numpy's `ipd[start:end]`: the plain slice for in-range bounds, never longer than the column, the whole column from 0 past the end, empty when ending at or before -len |
| StatFeatureExtractor.WindowRecord | features/stat_feature_extractor.py:39-56 | a record is labelled [start, start + window) with the flow name; for a window inside the column its KS pair, AD statistic and JS divergence are the tests applied to exactly `ipd[start..start+window]` (to the whole column when a window from 0 covers it), and its suspicion score is that of those four values |
| StatFeatureExtractor.RecordsFrom | features/stat_feature_extractor.py:38-56 | every record enumerated from a start position covers a full window inside the column |
| StatFeatureExtractor.RecordsFromShape | features/stat_feature_extractor.py:38-56 | the k-th record starts at start + k*step, and their number is the count of full windows |
| StatFeatureExtractor.StatRecordsShape | features/stat_feature_extractor.py:38-58 | (len - window) / step + 1 records when the column holds a window, none otherwise; record k spans [k*step, k*step + window); starts strictly increase |
| StatFeatureExtractor.RecordsDown | features/stat_feature_extractor.py:38-56 | every record of a descending range starts above the stop and at most at the first start |
| StatFeatureExtractor.RecordsDownLength | features/stat_feature_extractor.py:38 | a descending range from start above stop holds (start - stop - 1) / down + 1 starts, none when start <= stop |
| StatFeatureExtractor.RecordsDownShape | features/stat_feature_extractor.py:38-56 | the k-th record of a descending range starts at start - k*down, and their number is that of the range |
| StatFeatureExtractor.StatRecordsNegativeStep | features/stat_feature_extractor.py:38-56 | with a negative step, range(0, len - window + 1, step) yields (window - len - 2) / -step + 1 records when window > len + 1 and none otherwise; record k spans [k*step, k*step + window) |
| StatFeatureExtractor.ExtractStatFeatures | features/stat_feature_extractor.py:34-58 | the results are one record per start of range(0, len - window + 1, step), in range order, ascending or descending |
| StatFeatureExtractor.ExtractAscending | features/stat_feature_extractor.py:35-58 | for a positive step the loop's results are the records of every full window, in ascending order |
| StatFeatureExtractor.ExtractDescending | features/stat_feature_extractor.py:35-58 | for a negative step the loop's results are the records of the descending range's starts, in range order |
| StatFeatureExtractor.Record | features/stat_feature_extractor.py:39-56 | the loop body's slice, tests and score produce exactly the window's record |
| FeatureUtils.ConstantWindowStdNorm | features/feature_utils.py:37 | a constant window has coefficient of variation 0 |
| FeatureUtils.ComputeBasicFeatures | features/feature_utils.py:15-38 | under 2 IPDs every feature is 0; otherwise min and max bound every IPD, the mean lies between them, the std is non-negative, and so is std_norm for non-negative IPDs |
| FeatureUtils.Centre | features/feature_utils.py:52 | centring keeps the length |
| FeatureUtils.ConstantCentresToZero | features/feature_utils.py:52 | a constant window centres to all zeros |
| FeatureUtils.ComputeFftFeatures | features/feature_utils.py:43-70 | under 4 IPDs, or with zero spectral energy, every feature is 0; otherwise the dominant frequency is a non-DC bin index and the energy ratio is non-negative |
| FeatureUtils.Correlation | features/feature_utils.py:85-86 | the non-negative-lag half of the full self-correlation has one entry per lag |
| FeatureUtils.Normalised | features/feature_utils.py:87 | normalising keeps the length and, for a positive maximum, caps every entry at 1 |
| FeatureUtils.ComputeAutocorrFeatures | features/feature_utils.py:75-95 | under max_lag + 2 IPDs every feature is 0; otherwise the reported lag lies in 1..max_lag and, for a positive maximum correlation, ac_max and ac_mean are at most 1 |
| FeatureUtils.ConstantWindowAutocorr | features/feature_utils.py:84-95 | a constant window long enough to score gives ac_max 0, ac_lag 1, ac_mean 0 |
| FeatureUtils.ZeroCorrelation | features/feature_utils.py:85 | an all-zero series has all-zero self-correlation |
| FeatureUtils.ZeroNormalised | features/feature_utils.py:87 | an all-zero correlation is divided by 1 and stays zero |
| FeatureUtils.ZeroLagSummary | features/feature_utils.py:92-94 | all-zero lags have maximum 0, first argmax 0 and mean 0 |
| FeatureUtils.ComputeEntropyFeatures | features/feature_utils.py:100-114 | under 5 IPDs both features are 0; otherwise they are the histogram entropy and coefficient of variation |
| FeatureExtractor.Positives | features/feature_extractor.py:23 | the strictly positive IPDs, no more than the input, each positive, and exactly the positive values of the input |
| FeatureExtractor.PositivesOfPositive | features/feature_extractor.py:23 | filtering an all-positive series changes nothing |
| FeatureExtractor.EntropyIpd | features/feature_extractor.py:21-29 | a series with no positive IPD has entropy 0 |
| FeatureExtractor.EntropyIgnoresNonPositive | features/feature_extractor.py:21-29 | non-positive IPDs never influence the entropy |
| FeatureExtractor.Autocorr | features/feature_extractor.py:31-35 | under 2 IPDs the result is 0; a defined correlation lies in [-1, 1]; it is undefined exactly when a lagged half has zero variance |
| FeatureExtractor.ConstantAutocorrUndefined | features/feature_extractor.py:35 | a constant series of 2 or more IPDs has no defined lag-1 correlation |
| FeatureExtractor.Median | features/feature_extractor.py:48 | the median lies between the minimum and maximum |
| FeatureExtractor.Summarise | features/feature_extractor.py:45-54 | min and max are elements of the window that bound every IPD, mean and median lie between them, and pkt_count is the window length |
| FeatureExtractor.WindowsFrom | features/feature_extractor.py:39-58 | every window from a start lies inside the column, is non-empty and at most `window` long |
| FeatureExtractor.Windows | features/feature_extractor.py:39-58 | the same for range(0, len, step), empty for a negative step |
| FeatureExtractor.WindowsFromShape | features/feature_extractor.py:39-58 | window k starts at start + k*step and ends at min(start + k*step + window, len); every window but the last ends strictly inside the column |
| FeatureExtractor.LastWindowReachesEnd | features/feature_extractor.py:57-58 | when windows overlap or touch, the last window ends at the end of the column |
| FeatureExtractor.CoversColumn | features/feature_extractor.py:39-58 | with window >= step every IPD position lies in some window |
| FeatureExtractor.SummariseAll | features/feature_extractor.py:45-55 | one summary per window |
| FeatureExtractor.SummariseAllIndex | features/feature_extractor.py:45-55 | the k-th summary is that of the k-th window |
| FeatureExtractor.ExtractFromWindows | features/feature_extractor.py:39-59 | the records from a start are the summaries of the windows from it |
| FeatureExtractor.ExtractMatchesWindows | features/feature_extractor.py:37-59 | one record per window, in order, each summarising its window with pkt_count its length |
| FeatureExtractor.ExtractLoopSplit | features/feature_extractor.py:39-59 | the loop's state after some windows is what was collected so far followed by the records of the remaining windows |
| FeatureExtractor.ExtractWindowsBy | features/feature_extractor.py:37-59 | the loop, for any per-window summary, returns exactly the window records in order |
| FeatureExtractor.ExtractWindows | features/feature_extractor.py:37-59 | extract_windows returns exactly the window records in order |
| FeatureExtractor.Basename | features/feature_extractor.py:67 | the base name holds no '/', is a suffix of the path, and is preceded by '/' when shorter than the path |
| FeatureExtractor.TagRecords | features/feature_extractor.py:66-67 | every record is kept, in order, with its flow set to the name |
| FeatureExtractor.ProcessFlow | features/feature_extractor.py:61-69 | one record per window of the column, each the window's summary tagged with the file's base name |
| RealtimeDetector.DetectProtocol | live/realtime_detector.py:45-72 | ICMP first; for TCP, HTTP iff port 80, HTTPS iff 443 and not 80, TCP otherwise; for UDP, DNS iff port 53; OTHER without these layers; SSL is never returned |
| RealtimeDetector.NameInjective | live/realtime_detector.py:137 | different protocol labels are different strings |
| RealtimeDetector.FlowKeySeparatesLabels | live/realtime_detector.py:137 | packets between the same addresses but of different protocols get different flow keys, whatever the addresses |
| RealtimeDetector.FlowKeyInjective | live/realtime_detector.py:137 | for addresses without '_', two keys are equal exactly when source, destination and protocol are; A to B and B to A are different flows |
| RealtimeDetector.FeatureMap | live/realtime_detector.py:145-152 | the window's feature dictionary has exactly the 12 feature names; each entry is the matching field of the basic, FFT or autocorrelation features of the window's IPDs, except ipd_entropy and ipd_std_norm, which come from the entropy group |
| RealtimeDetector.MergeGroups | live/realtime_detector.py:148-152 | merging the four groups in order yields exactly the 12 feature names, each valued by the last group that sets it: the entropy group overrides the basic group's ipd_entropy and ipd_std_norm |
| RealtimeDetector.Reindex | live/realtime_detector.py:154-155 | one value per model column: the feature's value when present, 0.0 when missing |
| RealtimeDetector.ReindexReadsOnlyColumns | live/realtime_detector.py:155 | the row depends only on the listed columns |
| RealtimeDetector.ScoringWindow | live/realtime_detector.py:142-146 | no scoring under 40 timestamps; otherwise the 39 differences of the last 40 timestamps |
| RealtimeDetector.Response | live/realtime_detector.py:164-178 | alert iff risk >= 60, block iff risk >= 70, and a block implies an alert |
| RealtimeDetector.Evaluate | live/realtime_detector.py:154-162 | final risk = 100 * classifier probability on the reindexed features; the logged statistical and forest columns are 10 * entropy and 100 * std_norm |
| RealtimeDetector.Outcome | live/realtime_detector.py:164-178 | an alert iff risk >= 60, and a block command iff risk >= 70 and the address is not yet blocked |
| RealtimeDetector.Detector.BlockIp | live/realtime_detector.py:76-105 | a command is issued iff the address is not blocked; the address joins the blocked set only when the command succeeds; buffers and alerts are untouched |
| RealtimeDetector.Detector.Respond | live/realtime_detector.py:164-178 | the alert log grows by one record iff the window alerts; a block command goes out and the blocked set grows as BlockIp says |
| RealtimeDetector.Detector.HandlePacket | live/realtime_detector.py:130-178 | non-IP packets change nothing; otherwise `now` is appended to the flow's buffer; a short buffer changes nothing else; a full window is scored, alerted on from risk 60, and from risk 70 gets one firewall command for an address not yet blocked, which is recorded as blocked only if it succeeds; the blocked set only grows |
| LiveLogger.FlowKeyInjective | live/live_logger.py:27 | for addresses without '_', two packets share a flow exactly when source, destination and protocol number agree (the number written in decimal); A to B and B to A are different flows |
| LiveLogger.FlowKeySeparatesProtocols | live/live_logger.py:27 | packets with different protocol numbers between the same addresses get different keys |
| LiveLogger.Push | live/live_logger.py:14-32 | appending to a deque bounded by cap keeps at most cap items, ends with the new one, and drops the oldest only when full |
| LiveLogger.PushKeepsLatest | live/live_logger.py:14-32 | a buffer holding the latest cap delays still holds the latest cap delays after one more |
| LiveLogger.Logger.BuffersAreLatest | live/live_logger.py:12-14 | every flow's buffer is the last 50 of all its delays |
| LiveLogger.Logger.HandlePacket | live/live_logger.py:23-39 | non-IP packets change nothing; the flow's last-seen time becomes `now`; from the second packet on, the delay is pushed to the buffer and appended to the log |
| LiveLogger.Logger.RecordDelay | live/live_logger.py:30-37 | one delay goes into the flow's bounded buffer, its history and the log |
| LiveCapture.FlowKeyInjective | live/live_capture.py:15 | for a source without '_', two packets share a flow exactly when source and destination agree, whatever the protocol; A to B and B to A are different flows |
| LiveCapture.FlowRows | live/live_capture.py:24-29 | a flow of n arrivals gives n - 1 rows |
| LiveCapture.FlowRowsAt | live/live_capture.py:24-29 | row i is arrival i + 1 with its delay since arrival i |
| LiveCapture.FlowDelaysTelescope | live/live_capture.py:24-29 | a flow's delays add up to its last arrival minus its first |
| LiveCapture.AllRowsConcat | live/live_capture.py:23-29 | the rows of a split flow list are the rows of the parts in order |
| LiveCapture.FlowBlock | live/live_capture.py:23-29 | each flow's rows form one contiguous block after the rows of the flows before it |
| LiveCapture.Capture.HandlePacket | live/live_capture.py:13-16 | an IP packet's time is appended to its flow's list, and a new flow is added at the end of the first-seen order; nothing else changes |
| LiveCapture.Capture.IpdRows | live/live_capture.py:22-29 | the nested loops produce exactly the rows of every flow in first-seen order |
| FlowSplitter.FlowKeyInjective | preprocess/flow_splitter.py:19 | for addresses without '_', two rows share a flow exactly when source, destination and protocol agree; ports and lengths play no part; A to B and B to A are different flows |
| FlowSplitter.LexLeTotal | preprocess/flow_splitter.py:24 | the string order used for groupby keys is total |
| FlowSplitter.LexLeAntisymmetric | preprocess/flow_splitter.py:24 | the string order is antisymmetric |
| FlowSplitter.LexLeTransitive | preprocess/flow_splitter.py:24 | the string order is transitive |
| FlowSplitter.InsertKey | preprocess/flow_splitter.py:24 | inserting a key keeps the key list ascending and adds exactly that key |
| FlowSplitter.FlowKeys | preprocess/flow_splitter.py:24 | the group keys are strictly ascending and are exactly the keys of the rows |
| FlowSplitter.Group | preprocess/flow_splitter.py:24 | a group holds exactly the rows of its key |
| FlowSplitter.FlowTableShape | preprocess/flow_splitter.py:25-26 | a group's table is sorted by timestamp, labelled with the flow, starts with IPD 0, each later IPD is the gap to the row before, and its rows are a permutation of the group |
| FlowSplitter.LabelledShape | preprocess/flow_splitter.py:25-26 | labelling sorted rows with their IPD column gives that shape and keeps the rows |
| FlowSplitter.FlowPathInjective | preprocess/flow_splitter.py:28 | different flows are written to different files |
| FlowSplitter.SplitFlows | preprocess/flow_splitter.py:15-33 | the returned paths are those of the flow files, one per group in key order |
| FlowSplitter.WriteFlows | preprocess/flow_splitter.py:24-30 | the loop writes exactly one file per key, in order |
| FlowSplitter.TotalRowsOfFiles | preprocess/flow_splitter.py:24-30 | the files hold as many rows as the groups |
| FlowSplitter.GroupsPartition | preprocess/flow_splitter.py:24 | with distinct keys covering every row, the group sizes add up to the row count |
| FlowSplitter.SplitKeepsEveryRow | preprocess/flow_splitter.py:15-30 | the flow files together hold exactly as many rows as the capture |
| FlowSplitter.OneGroupPerRow | preprocess/flow_splitter.py:19-24 | every capture row belongs to exactly one group |
| FlowSplitter.SplitPathsDistinct | preprocess/flow_splitter.py:24-30 | no two flow files share a path |
| FlowSplitter.FilesForAt | preprocess/flow_splitter.py:24-30 | file i is the table of the i-th key's group at that key's path |
| IpdCleaning.ComputeIpdShape | preprocess/ipd_cleaning.py:8-11 | compute_ipd orders the timestamps, starts the IPD column at 0, makes every later IPD the non-negative gap to the row before, and keeps the multiset of timestamps |
| IpdCleaning.WithIpdColumnShape | preprocess/ipd_cleaning.py:10 | the diff-with-fill-0 column over sorted rows has that shape |
| IpdCleaning.Spread | preprocess/ipd_cleaning.py:16 | the z-score divisor is always positive |
| IpdCleaning.Selected | preprocess/ipd_cleaning.py:18-19 | the positions a mask selects, ascending, exactly those marked true |
| IpdCleaning.Select | preprocess/ipd_cleaning.py:19 | boolean indexing keeps the selected rows in table order |
| IpdCleaning.SelectAll | preprocess/ipd_cleaning.py:19 | an all-true mask keeps the table unchanged |
| IpdCleaning.RemoveOutlierIpdsKeeps | preprocess/ipd_cleaning.py:13-19 | the result is an order-preserving subsequence of the rows, and a row is kept iff its IPD lies strictly within z_thresh spreads of the mean |
| IpdCleaning.MaskSelects | preprocess/ipd_cleaning.py:17-18 | the mask selects a row iff \|ipd - mean\| < z_thresh * spread |
| IpdCleaning.ZScoreBound | preprocess/ipd_cleaning.py:17-18 | \|d / sd\| < z iff \|d\| < z * sd for a positive sd |
| IpdCleaning.ConstantColumnKept | preprocess/ipd_cleaning.py:13-19 | a constant IPD column keeps every row, through the 1.0 fallback |
| IpdCleaning.RescaleTimestamps | preprocess/ipd_cleaning.py:21-25 | the length is kept and without start_at_zero nothing changes |
| IpdCleaning.RescaleStartsAtZero | preprocess/ipd_cleaning.py:21-25 | the earliest timestamp becomes 0, none is negative, all pairwise gaps and every IPD are unchanged |
| IpdCleaning.ApplySyntheticJitter | preprocess/ipd_cleaning.py:27-31 | jitter keeps the length |
| IpdCleaning.JitterFloored | preprocess/ipd_cleaning.py:27-31 | timestamps are kept; every IPD is at least 1e-9; it moves by exactly its jitter unless that falls below the floor, where it becomes 1e-9 |
| IforestDetect.IforestRisk | models/iforest_detect.py:25-28 | an empty score array has no risks; otherwise there is one risk per score |
| IforestDetect.RiskOfBounds | models/iforest_detect.py:28 | a score between the minimum and maximum gets a risk in (0, 100] |
| IforestDetect.RiskOfAntiMonotone | models/iforest_detect.py:28 | a higher score never gets a higher risk |
| IforestDetect.IforestRiskRange | models/iforest_detect.py:28 | every risk lies in (0, 100] |
| IforestDetect.MinScoreFullRisk | models/iforest_detect.py:28 | a window with the minimum score gets risk 100 |
| IforestDetect.IforestRiskAntiMonotone | models/iforest_detect.py:28 | risks are anti-monotone in the scores |
| IforestDetect.EqualScoresFullRisk | models/iforest_detect.py:28 | equal scores all get risk 100 |
| IforestDetect.RiskRows | models/iforest_detect.py:25-35 | an empty table has no risk rows |
| IforestDetect.RiskRowsAligned | models/iforest_detect.py:25-35 | risk row i carries window i's key and the i-th risk |
| Common.SortBy | preprocess/flow_splitter.py:17 | sorting by a key yields a sorted permutation of the rows |
| Common.UnderscoreJoinInjective | preprocess/flow_splitter.py:19 | a key a_b splits back into its parts when a holds no '_': two such keys are equal exactly when both parts are |
| Common.IpdColumn | preprocess/flow_splitter.py:26 | the diff-with-fill-0 column has one entry per timestamp |
| Common.IpdColumnShape | preprocess/ipd_cleaning.py:10 | the column starts at 0, entry i is the gap to timestamp i - 1, and is non-negative over ordered timestamps |
| Common.IpdColumnTelescopes | preprocess/ipd_cleaning.py:10 | the IPD column adds up to the last timestamp minus the first |
| Common.NatToString | live/live_logger.py:27 | the decimal rendering of a number is non-empty, made of digits, one digit exactly for numbers below 10 |
| Common.NatToStringInjective | live/live_logger.py:27 | different protocol numbers render differently |
| Common.KeysPermutation | preprocess/ipd_cleaning.py:9-10 | permuting rows permutes their timestamps |

## Left out

- **Packet capture and the clock.** Scapy's sniff, packet parsing and time.time() are left out. Packets are records of the fields read, and the capture time is the parameter `now`.
- **File and console I/O.** CSV and JSON reading and writing, directory creation, the alert-log header logic and print are left out. Written tables are returned as values; written files are (path, rows) pairs.
- **The firewall subprocess.** It is left out. Its success or failure is the Boolean parameter `succeeds` / `firewallOk`.
- **Library numerics.** numpy / scipy / sklearn numerics (sqrt, histogram, entropy, rfft, correlate, ks_2samp, anderson, jensenshannon, predict_proba, the scaler, score_samples) are uninterpreted. They are fields of `Numerics` or parameters, with only the facts listed above.
- **Floating point.** IEEE rounding, overflow, inf and NaN are not modelled. `round(..., 2)` of the alert record is not modelled.
- **FeatureUtils.ComputeBasicFeatures, FeatureUtils.ComputeEntropyFeatures: division by zero.** If the mean is exactly -1e-9, the std_norm denominator is 0. The code then yields inf or NaN; the model yields 0.
- **FeatureExtractor.Autocorr: NaN.** The NaN of `np.corrcoef` on a zero-variance half is `None`.
- **StatFeatureExtractor.WindowRecord: tests on short windows.** A window that does not fit in the column (the descending range of a negative step) is sliced as numpy does, and the tests are applied to that slice. scipy's tests raise on empty samples; the model's tests are uninterpreted and return a value.
- **FeatureUtils.ComputeAutocorrFeatures: max_lag below 1.** With max_lag = 0 and at least two IPDs, `ac_vals` is empty and `np.max` raises ValueError (features/feature_utils.py:89-92); a negative max_lag slices from the end. The model takes `maxLag` as a natural number and requires `maxLag >= 1`, so these cases are not modelled. Every caller in the core uses the default 10.
- **FeatureExtractor.Basename, FlowSplitter.FlowPathInjective: POSIX paths only.** The separator is '/'. On Windows, `os.path` also splits on and joins with '\\'; that is not modelled.
- **FeatureExtractor.ExtractWindows, FeatureExtractor.ProcessFlow, StatFeatureExtractor.ExtractStatFeatures: negative window.** Both command-line tools accept any integer `--window`. With a negative window the Python slice `ipds[start:start + window]` counts its end from the back of the column. extract_windows then summarises that slice and stops at the first empty one. extract_stat_features runs scipy's tests on it, and they raise on an empty slice. The model types `window` as a natural number, so a negative window is not modelled.
- **FeatureExtractor.ExtractWindows, StatFeatureExtractor.ExtractStatFeatures: step 0.** A step of 0 raises ValueError in Python's range. It is excluded by `requires step != 0`.
- **Training, evaluation and dashboards.** Model training and evaluation scripts, the dashboards, the sender simulator, the capture converters and the orchestration scripts are not part of this model.
- **`main` functions and argument parsing.** They are not modelled.
- **Extra CSV columns.** `IpdCleaning.Row` carries only ts and ipd; the other columns of the cleaned table pass through untouched and are not modelled.
- **IpdCleaning.ApplySyntheticJitter: the random draw.** The random normal draw is the parameter `jitter`, so `jitter_std` has no counterpart.
- **Common.SortBy: sort stability.** It is a stable insertion sort. pandas' default sort does not guarantee an order for equal timestamps, so the model fixes one order the code may not follow.
- **FeatureExtractor.ExtractWindowsBy, FlowSplitter.WriteFlows: generic loops.** They are proved for any per-window summary and any table builder. `ExtractWindows` and `SplitFlows` instantiate them with the real ones.
- **IforestDetect.RiskRows: the other feature columns.** The key columns are taken from the feature table, whose other columns are not modelled.
- **Concurrency.** There is none: sniff callbacks run one at a time.
