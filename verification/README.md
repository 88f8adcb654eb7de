# StateExplorer core, modelled in Dafny

StateExplorer discovers the UI states of a web application and the transitions between them. This project models the deterministic core of that pipeline and proves properties of it:

- **Fingerprinting.** A page's URL, accessibility tree, title and main heading become a *fingerprint*. It holds a URL pattern, route parameters, a semantic summary (landmarks, interactive count, headings, key landmarks, ARIA states, structure hash) and the actionable elements (buttons, links, inputs). Both fingerprinting modules are modelled: the state fingerprinter and the older accessibility extractor.
- **Matching.** The similarity metrics and the state comparer score two fingerprints on four weighted dimensions: semantic, functional, structural and content. They decide a match against a threshold and find the best-matching known state.
- **Classification.** The state classifier maps a fingerprint to a state type and a `V_…` state id through an ordered list of rules.
- **Snapshot parsing.** This is the text parser that turns a Playwright ARIA snapshot (an indented YAML-like outline) into a tree.
- **Element location.** A descriptor of strategies (role, label, text, name, placeholder, href) becomes the first page query, in priority order, that finds an element.
- **Entities.** `UIState` and `StateTransition` are modelled with their defaults, their identity (equality and hashing) and the legacy `trigger` alias.
- **Discovery engine.** The engine's constructor state and the graph export are modelled.

Modules, one per source file: `SimilarityMetrics`, `AccessibilityExtractor`, `StateFingerprinter`, `StateComparer`, `StateClassifier`, `AriaSnapshot`, `ElementLocator`, `UiStates`, `StateTransitions` and `StateMachineDiscovery`. Shared modules support them:

- `Wrappers` (Option);
- `Strings` (strip, split, case, numerals);
- `Values` (the JSON-like values of metadata);
- `AccessibilityTree` (the node type and the pre-order walk every extractor uses);
- `Fingerprints` (the fingerprint record).

Every traversal in the source is a recursive walk with an accumulator. `AccessibilityTree.WalkIsFold` proves once that such a walk equals a fold over the pre-order node listing. Each extractor's contract then says exactly which nodes contribute. Floating-point scores are modelled as exact reals. Hash and digest functions, the query-string tokeniser behind `urllib.parse.parse_qs`, the sequence-matcher ratio, the clock and the browser page are parameters. Each property is stated for all of them.

## Model

| member | source | states |
|---|---|---|
| SimilarityMetrics.Jaccard | packages/model-resilience-core/src/model_resilience_core/matching/similarity_metrics.py:27-35 | Lies in [0, 1]; 1.0 for two empty sets, 0.0 when exactly one is empty, and 1.0 exactly when the sets are equal. |
| SimilarityMetrics.JaccardSymmetric | packages/model-resilience-core/src/model_resilience_core/matching/similarity_metrics.py:27-35 | Jaccard similarity does not depend on argument order. |
| SimilarityMetrics.NumericSimilarity | packages/model-resilience-core/src/model_resilience_core/matching/similarity_metrics.py:69-81 | Lies in [0, 1] and is 1.0 exactly for equal numbers. It is 0.0 for unequal numbers when the tolerance is not positive, or when the difference exceeds the tolerance times the larger magnitude. Inside that band it is 1 minus the relative difference (the difference over the larger magnitude) divided by the tolerance. |
| SimilarityMetrics.NumericHalfway | packages/model-resilience-core/src/model_resilience_core/matching/similarity_metrics.py:76-81 | Example of the linear fall inside the band: 1.0 against 0.9 with tolerance 0.2 scores 0.5. |
| SimilarityMetrics.NumericSimilaritySymmetric | packages/model-resilience-core/src/model_resilience_core/matching/similarity_metrics.py:69-81 | Numeric similarity does not depend on argument order. |
| SimilarityMetrics.ListSimilarity | packages/model-resilience-core/src/model_resilience_core/matching/similarity_metrics.py:95-103 | Equals Jaccard over the two lists' element sets in every case, the equal-list and empty-list shortcuts included. So order and duplicates never matter. |
| SimilarityMetrics.TextSimilarity | packages/model-resilience-core/src/model_resilience_core/matching/similarity_metrics.py:49-54 | Equal texts score 1.0 and a lone empty text scores 0.0. Otherwise the score is the sequence-matcher ratio. |
| AccessibilityExtractor.TreeTopology | packages/model-resilience-core/src/model_resilience_core/fingerprinting/accessibility_extractor.py:34-45 | Past depth 10 the topology is the empty list. Otherwise it is the role followed by one entry per child, so its length is 1 + the number of children. |
| AccessibilityExtractor.TopologyEqualIffAgree | packages/model-resilience-core/src/model_resilience_core/fingerprinting/accessibility_extractor.py:34-45 | Two trees have equal topologies exactly when they agree on roles and child counts down to depth 10. |
| AccessibilityExtractor.HashDependsOnlyOnTopology | packages/model-resilience-core/src/model_resilience_core/fingerprinting/accessibility_extractor.py:20-31 | Trees that agree down to depth 10 hash equally, whatever the digest function. |
| AccessibilityExtractor.HashIgnoresNames | packages/model-resilience-core/src/model_resilience_core/fingerprinting/accessibility_extractor.py:20-45 | Trees that differ only in names hash equally. |
| AccessibilityExtractor.ExtractLandmarks | packages/model-resilience-core/src/model_resilience_core/fingerprinting/accessibility_extractor.py:58-69 | One entry per landmark node, in pre-order with duplicates kept. Every entry is one of the six listed roles; form and region are not among them. |
| AccessibilityExtractor.CountInteractive | packages/model-resilience-core/src/model_resilience_core/fingerprinting/accessibility_extractor.py:82-94 | Counts the pre-order nodes whose role is one of the seven interactive roles. The count never exceeds the node count. |
| AccessibilityExtractor.ExtractHeadings | packages/model-resilience-core/src/model_resilience_core/fingerprinting/accessibility_extractor.py:107-121 | One record per heading node with a non-empty name, in pre-order. Every record has non-empty text. |
| AccessibilityTree.WalkIsFold | packages/model-resilience-core/src/model_resilience_core/fingerprinting/state_fingerprinter.py:270-278 | The recursive traverse-with-accumulator walk equals a left fold over the pre-order listing of the nodes. |
| AccessibilityTree.CountIsCountWhere | packages/model-resilience-core/src/model_resilience_core/fingerprinting/state_fingerprinter.py:292-302 | A counting walk counts the pre-order nodes that satisfy its test, so the count is at most the node count. |
| StateFingerprinter.DropBang | packages/model-resilience-core/src/model_resilience_core/fingerprinting/state_fingerprinter.py:107-108 | A route starting with `!` loses exactly that one character; any other route is unchanged. |
| StateFingerprinter.StripSlashes | packages/model-resilience-core/src/model_resilience_core/fingerprinting/state_fingerprinter.py:111 | Stripping `/` leaves a middle section of the input with only slashes around it. The result is empty exactly when the input is all slashes. |
| StateFingerprinter.UrlPattern | packages/model-resilience-core/src/model_resilience_core/fingerprinting/state_fingerprinter.py:102-127 | The pattern is never empty and never starts or ends with `/`. It is `root` when the route (the fragment if present, else the path, less one leading `!`) is all slashes. Otherwise it is that route with its slashes stripped. |
| StateFingerprinter.UrlPatternIdempotent | packages/model-resilience-core/src/model_resilience_core/fingerprinting/state_fingerprinter.py:102-127 | A pattern not starting with `!`, fed back in as a path, gives itself back. |
| StateFingerprinter.UrlPatternDoubleBang | packages/model-resilience-core/src/model_resilience_core/fingerprinting/state_fingerprinter.py:107-108 | The fragment `!!x` gives the pattern `!x`, and `!x` as a path gives `x`. So the pattern is not idempotent in general. |
| StateFingerprinter.UrlPatternPrefersFragment | packages/model-resilience-core/src/model_resilience_core/fingerprinting/state_fingerprinter.py:104 | For every URL with a non-empty fragment, the path and query play no part, and the fragment is read exactly as a path would be. Example: `/admin/config?id=123#section` gives `section`. |
| StateFingerprinter.UrlPatternOfPath | packages/model-resilience-core/src/model_resilience_core/fingerprinting/state_fingerprinter.py:102-127 | The path `/admin/config` gives `admin/config`: slashes are stripped, not kept. |
| StateFingerprinter.ValuesFor | packages/model-resilience-core/src/model_resilience_core/fingerprinting/state_fingerprinter.py:146 | The values collected for a key are empty exactly when the key does not occur in the parsed pairs. |
| StateFingerprinter.RouteParams | packages/model-resilience-core/src/model_resilience_core/fingerprinting/state_fingerprinter.py:139-154 | The keys are those of the query and of the fragment's query part. The fragment's values win on a clash. A key with one value maps to that value; a key with several maps to the list. |
| StateFingerprinter.ExtractLandmarks | packages/model-resilience-core/src/model_resilience_core/fingerprinting/state_fingerprinter.py:266-278 | One entry per node whose role is in the eight-role landmark set, in pre-order with duplicates kept. |
| StateFingerprinter.CountInteractive | packages/model-resilience-core/src/model_resilience_core/fingerprinting/state_fingerprinter.py:290-302 | Counts the pre-order nodes whose role is one of the eight interactive roles. The count is at most the node count. |
| StateFingerprinter.ExtractHeadings | packages/model-resilience-core/src/model_resilience_core/fingerprinting/state_fingerprinter.py:314-327 | One `h<level>: <name>` entry per heading node with a non-empty name, in pre-order. Every entry starts with `h`. |
| StateFingerprinter.ActionButtons | packages/model-resilience-core/src/model_resilience_core/fingerprinting/state_fingerprinter.py:196-202 | The button list the walk builds holds exactly the button nodes in pre-order, so its length is their count. |
| StateFingerprinter.ActionLinks | packages/model-resilience-core/src/model_resilience_core/fingerprinting/state_fingerprinter.py:203-210 | The link list holds exactly the link nodes in pre-order. |
| StateFingerprinter.ActionInputs | packages/model-resilience-core/src/model_resilience_core/fingerprinting/state_fingerprinter.py:211-217 | The input list holds exactly the textbox, combobox, searchbox and spinbutton nodes in pre-order. |
| StateFingerprinter.ExtractActionables | packages/model-resilience-core/src/model_resilience_core/fingerprinting/state_fingerprinter.py:187-230 | The buttons, links and inputs are exactly the pre-order nodes of those roles, each list with its role. The total count is the sum of the three lengths. |
| StateFingerprinter.Structure | packages/model-resilience-core/src/model_resilience_core/fingerprinting/state_fingerprinter.py:245-250 | The hashed record keeps each node's role and the first 20 characters of its name, with one child record per child. |
| StateFingerprinter.StructureEqualIff | packages/model-resilience-core/src/model_resilience_core/fingerprinting/state_fingerprinter.py:245-252 | Two trees give equal hashed records exactly when they agree on roles, shape and the first 20 characters of every name. |
| StateFingerprinter.HashIgnoresLongNames | packages/model-resilience-core/src/model_resilience_core/fingerprinting/state_fingerprinter.py:233-254 | Trees that differ only beyond the 20th character of names hash equally, whatever the digest function. |
| StateFingerprinter.ExtractKeyLandmarks | packages/model-resilience-core/src/model_resilience_core/fingerprinting/state_fingerprinter.py:339-373 | Keys are `main_content`, `search` or `nav_<i>`. `main_content` and `search` are present exactly when such a node exists, and hold the last one. Each named navigation node is stored under `nav_<NavNumber>`: the named navigation nodes before it, plus one for each slot already filled. Every `nav_` key is one of those. The size is the number of named navigation nodes plus the two slots present. |
| StateFingerprinter.KeyFoldSize | packages/model-resilience-core/src/model_resilience_core/fingerprinting/state_fingerprinter.py:346-367 | Each named navigation node adds a fresh `nav_` key. The two fixed slots add one entry each the first time they are filled. |
| StateFingerprinter.NavNumberCountsSlots | packages/model-resilience-core/src/model_resilience_core/fingerprinting/state_fingerprinter.py:347 | Example of the numbering rule: in a tree whose main node comes before its one named navigation node, that node becomes `nav_1`, not `nav_0`. |
| StateFingerprinter.ExtractAriaStates | packages/model-resilience-core/src/model_resilience_core/fingerprinting/state_fingerprinter.py:393-443 | The expanded, selected, checked and current lists hold exactly the qualifying pre-order nodes. Every current entry is truthy. The disabled count counts the nodes with a truthy `disabled` and is at most the node count. |
| StateFingerprinter.A11yFingerprint | packages/model-resilience-core/src/model_resilience_core/fingerprinting/state_fingerprinter.py:157-173 | Any tree agreeing on roles, shape and name prefixes gets the same structure hash. The landmark list is exactly the roles of the landmark nodes in pre-order: one per landmark node, all from the landmark roles. The interactive count is exactly the number of interactive nodes, at most one per node. The heading list is exactly the named headings in pre-order, one per named heading. The keys are those of the key-landmark extractor, of the three kinds only. The ARIA-state record is always the extractor's. |
| StateFingerprinter.CreateFingerprint | packages/model-resilience-core/src/model_resilience_core/fingerprinting/state_fingerprinter.py:57-90 | Copies the URL pattern, route parameters, title and main heading. The semantic summary is absent exactly when the tree is. For a present tree, the semantic summary is that tree's summary and the actionables are that tree's buttons, links and inputs. Actionables are always present and empty for an absent tree. Their total is the sum of the three lists. Buttons carry role `button`, links role `link`, and inputs one of the input roles. |
| StateComparer.SumPerfect | packages/model-resilience-core/src/model_resilience_core/matching/state_comparer.py:251-253 | A weighted sum of well-formed terms reaches the total weight exactly when every score is 1.0. |
| StateComparer.AverageBounds | packages/model-resilience-core/src/model_resilience_core/matching/state_comparer.py:251-253 | A weighted average of well-formed, non-empty terms lies in [0, 1] and is 1.0 exactly when every score is 1.0. |
| StateComparer.WeightedAverageBounds | packages/model-resilience-core/src/model_resilience_core/matching/state_comparer.py:247-253 | With no terms the neutral value is returned. Otherwise the zero-weight fallback is never reached and the result lies in [0, 1]. |
| StateComparer.WeightedAverage | packages/model-resilience-core/src/model_resilience_core/matching/state_comparer.py:247-253 | No terms give the neutral value. With positive total weight the result times the total weight is the weighted sum. Otherwise it is the zero-weight fallback. |
| StateComparer.SetRatio | packages/model-resilience-core/src/model_resilience_core/matching/state_comparer.py:212 | Equals Jaccard when either set is non-empty. It is 0.0 (not Jaccard's 1.0) when both are empty. |
| StateComparer.SetRatioSymmetric | packages/model-resilience-core/src/model_resilience_core/matching/state_comparer.py:212 | The set ratio does not depend on argument order. |
| StateComparer.CountScore | packages/model-resilience-core/src/model_resilience_core/matching/state_comparer.py:220-222 | The interactive-count score lies in [0, 1] and is 1.0 exactly for equal counts. It is already 0.0 once the counts differ by a fifth of the larger count, or by one when the larger count is below five. |
| StateComparer.CountScoreIsNumeric | packages/model-resilience-core/src/model_resilience_core/matching/state_comparer.py:220-222 | For counts of five or more, the count score coincides with numeric similarity at 20% tolerance. |
| StateComparer.CountScoreSymmetric | packages/model-resilience-core/src/model_resilience_core/matching/state_comparer.py:220-222 | The count score does not depend on argument order. |
| StateComparer.CountEightOfTen | packages/model-resilience-core/src/model_resilience_core/matching/state_comparer.py:218-222 | 8 against 10 interactive elements scores 0.0, although the comment beside the code offers this pair as an allowed variance. |
| StateComparer.CountRatio | packages/model-resilience-core/src/model_resilience_core/matching/state_comparer.py:278-279 | The ARIA count ratio lies in [0, 1] and is 1.0 exactly for equal counts. For unequal counts it is 1 minus their difference over the larger of the two counts and 1. |
| StateComparer.CompareAriaStates | packages/model-resilience-core/src/model_resilience_core/matching/state_comparer.py:269-298 | Lies in [0, 1]. It is 1.0 when either summary is absent, and 1.0 when the expanded, selected and disabled counts agree. |
| StateComparer.CompareAriaStatesSymmetric | packages/model-resilience-core/src/model_resilience_core/matching/state_comparer.py:269-298 | The ARIA-state score does not depend on argument order. |
| StateComparer.SemanticTerms | packages/model-resilience-core/src/model_resilience_core/matching/state_comparer.py:206-245 | The semantic terms are well formed and never empty, because the ARIA term is always added. |
| StateComparer.CompareA11yTrees | packages/model-resilience-core/src/model_resilience_core/matching/state_comparer.py:203-253 | Lies in [0, 1] and is 0.0 when either summary is absent. Otherwise it is 1.0 exactly when every present term scores 1.0. |
| StateComparer.SemanticNeutralUnreachable | packages/model-resilience-core/src/model_resilience_core/matching/state_comparer.py:247-253 | For two present summaries neither the neutral 0.5 nor the zero-weight fallback is returned: the score is the true weighted average. |
| StateComparer.CompareA11yTreesSymmetric | packages/model-resilience-core/src/model_resilience_core/matching/state_comparer.py:203-253 | The semantic score does not depend on argument order. |
| StateComparer.SemanticSelfSimilar | packages/model-resilience-core/src/model_resilience_core/matching/state_comparer.py:203-253 | A present summary compared with itself scores 1.0. |
| StateComparer.CompareElementLists | packages/model-resilience-core/src/model_resilience_core/matching/state_comparer.py:363-382 | Equals Jaccard over the sets of element names, the two empty-list shortcuts included. |
| StateComparer.CompareElementListsSymmetric | packages/model-resilience-core/src/model_resilience_core/matching/state_comparer.py:363-382 | The element-list score does not depend on argument order. |
| StateComparer.ActionTerms | packages/model-resilience-core/src/model_resilience_core/matching/state_comparer.py:319-340 | The functional terms are well formed, and empty exactly when all six lists are empty. |
| StateComparer.CompareActionables | packages/model-resilience-core/src/model_resilience_core/matching/state_comparer.py:316-348 | Lies in [0, 1] and is 0.0 when either record is absent. It is 0.5 when no list has elements; otherwise it is 1.0 exactly when every present term scores 1.0. |
| StateComparer.CompareActionablesSymmetric | packages/model-resilience-core/src/model_resilience_core/matching/state_comparer.py:316-348 | The functional score does not depend on argument order. |
| StateComparer.FunctionalSelfSimilar | packages/model-resilience-core/src/model_resilience_core/matching/state_comparer.py:316-348 | A present record compared with itself scores 1.0, or the neutral 0.5 when all its lists are empty. |
| StateComparer.PositionalMatches | packages/model-resilience-core/src/model_resilience_core/matching/state_comparer.py:409 | The count of agreeing positions is at most either length. It equals both lengths only for equal lists. |
| StateComparer.PositionalMatchesCounts | packages/model-resilience-core/src/model_resilience_core/matching/state_comparer.py:409 | The recursive count equals the number of positions, below both lengths, where the two lists hold the same segment. |
| StateComparer.PositionalMatchesSymmetric | packages/model-resilience-core/src/model_resilience_core/matching/state_comparer.py:409 | Positional matching does not depend on argument order. |
| StateComparer.CompareUrlPatterns | packages/model-resilience-core/src/model_resilience_core/matching/state_comparer.py:395-412 | Lies in [0, 1] and is 1.0 exactly for equal patterns (two empty ones included). It is 0.0 when exactly one is empty. Two different non-empty patterns score the positional matches of their `/`-segments over the larger segment count. |
| StateComparer.CompareUrlPatternsAgreeing | packages/model-resilience-core/src/model_resilience_core/matching/state_comparer.py:404-412 | Two different non-empty patterns score the number of segment positions on which they agree, out of the larger segment count. |
| StateComparer.CompareUrlPatternsSymmetric | packages/model-resilience-core/src/model_resilience_core/matching/state_comparer.py:395-412 | The URL score does not depend on argument order. |
| StateComparer.HalfOfTwo | packages/model-resilience-core/src/model_resilience_core/matching/state_comparer.py:404-412 | Two-segment patterns that share only their first segment score 0.5. |
| StateComparer.UrlHalfMatch | packages/model-resilience-core/src/model_resilience_core/matching/state_comparer.py:404 | `admin/config` against `admin/users` scores 0.5. |
| StateComparer.CompareContent | packages/model-resilience-core/src/model_resilience_core/matching/state_comparer.py:432-449 | Lies in [0, 1] and is 1.0 exactly when both titles and both headings agree, all-empty included. It is 0.0 when the title differs and the headings give no credit, and symmetrically. |
| StateComparer.DimensionScores | packages/model-resilience-core/src/model_resilience_core/matching/state_comparer.py:66-99 | All four scored dimensions lie in [0, 1]. |
| StateComparer.DimensionScoresSymmetric | packages/model-resilience-core/src/model_resilience_core/matching/state_comparer.py:66-99 | Every dimension score does not depend on argument order. |
| StateComparer.WeightedBounds | packages/model-resilience-core/src/model_resilience_core/matching/state_comparer.py:105-111 | With non-negative weights, the weighted sum lies between 0 and the sum of the four scored weights. |
| StateComparer.CalculateSimilarity | packages/model-resilience-core/src/model_resilience_core/matching/state_comparer.py:53-120 | With non-negative weights the similarity lies between 0 and the sum of the four scored weights. With the default weights that bound is 0.99, because style is never added. |
| StateComparer.SimilaritySymmetric | packages/model-resilience-core/src/model_resilience_core/matching/state_comparer.py:53-120 | Similarity does not depend on argument order. |
| StateComparer.IsMatch | packages/model-resilience-core/src/model_resilience_core/matching/state_comparer.py:139-143 | A match is exactly similarity at least the threshold, which is 0.80 unless one is given. |
| StateComparer.NewComparer | packages/model-resilience-core/src/model_resilience_core/matching/state_comparer.py:36-51 | Given weights are kept as given. Without them the default weights are used: 0.60, 0.25, 0.10, 0.04 and 0.01, non-negative and summing to 1. |
| StateComparer.LowScores | packages/model-resilience-core/src/model_resilience_core/matching/state_comparer.py:105-111 | With default weights, a zero semantic score caps the similarity at 0.39 and a zero functional score caps it at 0.74. |
| StateComparer.DefaultMatchNeedsSummaries | packages/model-resilience-core/src/model_resilience_core/matching/state_comparer.py:139-143 | A default match needs the semantic summary and the actionable elements on both sides. |
| StateComparer.TitleAndUrlOnlySelf | packages/model-resilience-core/src/model_resilience_core/matching/state_comparer.py:53-120 | Any fingerprint with no accessibility summary and no actionables scores 0.14 against itself, whatever its pattern, parameters, title and heading, so it never matches under the default threshold. |
| StateComparer.TitleAndUrlOnlyOther | packages/model-resilience-core/src/model_resilience_core/matching/state_comparer.py:53-120 | `/admin` against `/login` with different titles scores 0.05. The only credit is the shared empty first URL segment, worth half of the structural weight. |
| StateComparer.ScanCorrect | packages/model-resilience-core/src/model_resilience_core/matching/state_comparer.py:164-176 | The loop keeps the first position holding the highest score that reaches the threshold and is positive. |
| StateComparer.FirstBestUnique | packages/model-resilience-core/src/model_resilience_core/matching/state_comparer.py:173-175 | The first highest qualifying position is unique, whatever the threshold. |
| StateComparer.BestIndex | packages/model-resilience-core/src/model_resilience_core/matching/state_comparer.py:164-176 | None exactly when no score both reaches the threshold and is positive. Otherwise it is the first position of the highest such score. |
| StateComparer.ScoresAgainst | packages/model-resilience-core/src/model_resilience_core/matching/state_comparer.py:167-171 | One score per known state, in list order: the candidate against that state's fingerprint. |
| StateComparer.FindMatchingState | packages/model-resilience-core/src/model_resilience_core/matching/state_comparer.py:161-183 | Gives (None, 0.0) when no score qualifies. Otherwise it gives the first state with the highest score, and that score reaches the threshold. |
| StateComparer.ThresholdMonotone | packages/model-resilience-core/src/model_resilience_core/matching/state_comparer.py:161-176 | A match found at threshold t1 is the same match, with the same score, at any lower threshold. |
| StateClassifier.ReplaceSeparators | packages/aria-state-mapper/src/aria_state_mapper/discovery/state_classifier.py:153-154 | After the replacements no `/`, `#`, `!`, `-` or `.` remains. |
| StateClassifier.NormalizeName | packages/aria-state-mapper/src/aria_state_mapper/discovery/state_classifier.py:144-156 | The result is non-empty, has no separators and no lower-case letters, and neither starts nor ends with `_`. |
| StateClassifier.NormalizedFixpoint | packages/aria-state-mapper/src/aria_state_mapper/discovery/state_classifier.py:153-156 | An already normalised name is left unchanged. |
| StateClassifier.NormalizeNameIdempotent | packages/aria-state-mapper/src/aria_state_mapper/discovery/state_classifier.py:153-156 | Normalising twice is normalising once. |
| StateClassifier.NormalizeTwoSegments | packages/aria-state-mapper/src/aria_state_mapper/discovery/state_classifier.py:153-156 | Two clean segments joined by `/` become the upper-cased segments joined by `_`. |
| StateClassifier.SignalsOf | packages/aria-state-mapper/src/aria_state_mapper/discovery/state_classifier.py:34-44 | Reads the URL pattern, the lower-cased title, the landmark roles, the buttons and the links, with empty lists for an absent summary or record. |
| StateClassifier.LoggedInClassification | packages/aria-state-mapper/src/aria_state_mapper/discovery/state_classifier.py:98-115 | The id is a state id and the type is dashboard, admin, list or page. The type is dashboard exactly when the URL pattern or the title mentions `overview`, and then the id is `V_OVERVIEW_PAGE`. Admin requires `admin` in the URL pattern. Every type but dashboard has the id `V_` plus the normalised pattern. |
| StateClassifier.FiringRule | packages/aria-state-mapper/src/aria_state_mapper/discovery/state_classifier.py:67-141 | The rule chosen fires, and no earlier rule in the source's order fires. |
| StateClassifier.FiringRuleUnique | packages/aria-state-mapper/src/aria_state_mapper/discovery/state_classifier.py:67-141 | Any rule that fires with no earlier rule firing is the one chosen. |
| StateClassifier.ClassifySignals | packages/aria-state-mapper/src/aria_state_mapper/discovery/state_classifier.py:67-141 | The id is `V_` followed by id characters. The type is error exactly on an error signal outside the login-form exception. It is modal exactly with a dialog and no error, and loading exactly with a loading signal and neither. An error is `V_LOGIN_FORM_ERROR` on a login URL or title, and otherwise `V_ERROR_` plus the normalised pattern. The result is the dashboard `V_OVERVIEW_PAGE` exactly when no earlier rule fires, the user is logged in, and the pattern or title mentions `overview`. |
| StateClassifier.ClassifyState | packages/aria-state-mapper/src/aria_state_mapper/discovery/state_classifier.py:20-141 | Every id is a state id (`V_` then upper-case id characters). A plain page is named `V_` plus its normalised URL pattern. Without actionables the state is neither a modal nor the login form. Without a semantic summary it is never a success state. An error outside a login context is `V_ERROR_` plus the normalised pattern. The state is the dashboard `V_OVERVIEW_PAGE` exactly when no error, dialog or loading signal is present, the user is logged in, and the pattern or lower-cased title mentions `overview`. |
| StateClassifier.ClassifyTypeConditions | packages/aria-state-mapper/src/aria_state_mapper/discovery/state_classifier.py:77-135 | An error gets `V_LOGIN_FORM_ERROR` exactly in the login context. A form needs a login button and no logout, with id `V_LOGIN_FORM_EMPTY`. Success needs a status landmark. Admin needs a logged-in page whose pattern mentions admin. |
| StateClassifier.PatternIdIsStateId | packages/aria-state-mapper/src/aria_state_mapper/discovery/state_classifier.py:80-141 | Every prefixed pattern id is a well-formed state id. |
| StateClassifier.ErrorIdIsNotLoginError | packages/aria-state-mapper/src/aria_state_mapper/discovery/state_classifier.py:77-81 | An ordinary error id never collides with `V_LOGIN_FORM_ERROR`. |
| StateClassifier.FixedIdsAreStateIds | packages/aria-state-mapper/src/aria_state_mapper/discovery/state_classifier.py:78-125 | The four fixed ids are well-formed state ids. |
| StateClassifier.ErrorBannerOnLoginForm | packages/aria-state-mapper/src/aria_state_mapper/discovery/state_classifier.py:68-121 | An error signal on a login form with a login button and no logout falls through to the form rule: (form, `V_LOGIN_FORM_EMPTY`). |
| StateClassifier.LogoutNeverLoginForm | packages/aria-state-mapper/src/aria_state_mapper/discovery/state_classifier.py:118-121 | A page with a logout control is never classified as a login form. |
| StateClassifier.DefaultIdIsPattern | packages/aria-state-mapper/src/aria_state_mapper/discovery/state_classifier.py:105-141 | A page classification always has the id `V_` plus the normalised URL pattern. |
| StateClassifier.NoModalNoSuccess | packages/aria-state-mapper/src/aria_state_mapper/discovery/state_classifier.py:84-135 | Without a dialog and a status landmark, neither modal nor success is possible. |
| StateClassifier.RestrictedSignals | packages/aria-state-mapper/src/aria_state_mapper/discovery/state_classifier.py:34-135 | Buttons all with role button and landmarks from the fingerprinter's set mean no dialog, no table, no alert and no status landmark. |
| StateClassifier.ClassifyFingerprinterOutput | packages/aria-state-mapper/src/aria_state_mapper/discovery/state_classifier.py:84-135 | A fingerprint from the fingerprinter is never classified as modal or success. |
| AriaSnapshot.UrlMatchAt | packages/aria-state-mapper/src/aria_state_mapper/playwright_integration/aria_snapshot.py:119 | A match of `/url:\s*"([^"]+)"` yields a non-empty value with no quote. |
| AriaSnapshot.SearchUrl | packages/aria-state-mapper/src/aria_state_mapper/playwright_integration/aria_snapshot.py:119 | None exactly when no position matches. Otherwise it gives the value at the leftmost matching position. |
| AriaSnapshot.UrlMatchAtOf | packages/aria-state-mapper/src/aria_state_mapper/playwright_integration/aria_snapshot.py:119 | A `/url:` followed by whitespace and a quoted value matches and yields that value. |
| AriaSnapshot.UrlOfUrlLine | packages/aria-state-mapper/src/aria_state_mapper/playwright_integration/aria_snapshot.py:117-122 | The value of a line such as `- /url: "#!/overview"` is read back whole. |
| AriaSnapshot.FindAttrOpen | packages/aria-state-mapper/src/aria_state_mapper/playwright_integration/aria_snapshot.py:137 | Finds the leftmost position where the attribute group opens, or reports exactly when there is none. |
| AriaSnapshot.ParseAttrValue | packages/aria-state-mapper/src/aria_state_mapper/playwright_integration/aria_snapshot.py:150-157 | Bool exactly for `true`/`false` in any case, Int exactly for digit strings (with their value), and otherwise the text itself. |
| AriaSnapshot.AttrPairOf | packages/aria-state-mapper/src/aria_state_mapper/playwright_integration/aria_snapshot.py:144-148 | A piece `key=value` with no `=` in the key sets the stripped key to the typed, stripped value. A piece without `=` sets nothing. |
| AriaSnapshot.LastSetting | packages/aria-state-mapper/src/aria_state_mapper/playwright_integration/aria_snapshot.py:143-157 | Finds the last piece setting a key, or reports exactly when no piece sets it. |
| AriaSnapshot.Apply | packages/aria-state-mapper/src/aria_state_mapper/playwright_integration/aria_snapshot.py:143-157 | A key is present exactly when it was already or some piece sets it. The last piece setting it wins, and an untouched key keeps its old value. |
| AriaSnapshot.Attributes | packages/aria-state-mapper/src/aria_state_mapper/playwright_integration/aria_snapshot.py:137-157 | The attributes are exactly the non-reserved keys some piece of the bracket sets, each with the value of the last piece that sets it. |
| AriaSnapshot.AttrValueRoundTrip | packages/aria-state-mapper/src/aria_state_mapper/playwright_integration/aria_snapshot.py:150-157 | A boolean, a non-negative integer or a plain string, printed and parsed back, gives the same value. |
| AriaSnapshot.NameMatch | packages/aria-state-mapper/src/aria_state_mapper/playwright_integration/aria_snapshot.py:178 | A match splits the content into a non-blank role, whitespace and a quoted non-empty name. |
| AriaSnapshot.NameMatchOf | packages/aria-state-mapper/src/aria_state_mapper/playwright_integration/aria_snapshot.py:178-181 | A role, whitespace and a quoted name are read back as that role and name. |
| AriaSnapshot.TextName | packages/aria-state-mapper/src/aria_state_mapper/playwright_integration/aria_snapshot.py:168-172 | The name read after `text:` contains no quote. |
| AriaSnapshot.RoleAndName | packages/aria-state-mapper/src/aria_state_mapper/playwright_integration/aria_snapshot.py:168-185 | A `text:` line gives role `text` and the name `TextName` reads. Otherwise a `role "name"` match gives that role and name, and with no match the role is the content itself, or `generic` when empty, with an empty name. The role is never empty. |
| AriaSnapshot.ParseLine | packages/aria-state-mapper/src/aria_state_mapper/playwright_integration/aria_snapshot.py:108-185 | A line is skipped exactly when it is blank, a comment, or a non-URL line that is empty or starts with `/` once its `- ` is removed. A URL line is exactly a non-blank, non-comment line starting with `- /url:` or `/url:`, and carries the leftmost URL match. A node line records the indentation. Its role and name are `RoleAndName` of the text without bracket and trailing colon, and its attributes are those of the bracket, never a reserved key. |
| AriaSnapshot.NamedNodeLineOf | packages/aria-state-mapper/src/aria_state_mapper/playwright_integration/aria_snapshot.py:108-185 | An indented `- role "name"` line, with a colon-free role not starting with `/`, parses back to that role and name at the indentation's width. |
| AriaSnapshot.BareRoleLineOf | packages/aria-state-mapper/src/aria_state_mapper/playwright_integration/aria_snapshot.py:108-185 | An indented `- role` line, with a single-word role free of `:` and `]` that does not start with `/`, parses back to that role with an empty name. |
| AriaSnapshot.PopTo | packages/aria-state-mapper/src/aria_state_mapper/playwright_integration/aria_snapshot.py:188-189 | Pops to a prefix of the stack. The entries kept are exactly those indented less than the new line. |
| AriaSnapshot.AppendAtFacts | packages/aria-state-mapper/src/aria_state_mapper/playwright_integration/aria_snapshot.py:192-199 | Appending a node under the spine node at a depth adds exactly that node's outline and makes it the deepest spine node. |
| AriaSnapshot.Step | packages/aria-state-mapper/src/aria_state_mapper/playwright_integration/aria_snapshot.py:108-199 | One line keeps the stack and the tree's right spine in step. The root sentinel stays first, the indents increase, their count is the spine length plus one, and the root stays `root`. |
| AriaSnapshot.StepNesting | packages/aria-state-mapper/src/aria_state_mapper/playwright_integration/aria_snapshot.py:187-199 | A node line becomes a child of the deepest stacked node indented less than it, and becomes the deepest node. |
| AriaSnapshot.StepUrl | packages/aria-state-mapper/src/aria_state_mapper/playwright_integration/aria_snapshot.py:117-123 | A URL line sets `value` on the most recently added node and changes nothing else. |
| AriaSnapshot.Run | packages/aria-state-mapper/src/aria_state_mapper/playwright_integration/aria_snapshot.py:108-199 | Running the lines appends exactly the nodes of the node lines, in order, to the pre-order outline. |
| AriaSnapshot.ParseYamlSnapshot | packages/aria-state-mapper/src/aria_state_mapper/playwright_integration/aria_snapshot.py:103-201 | The result is always a `root` node with an empty name, even for empty input. |
| AriaSnapshot.OnlyCommentsIsRoot | packages/aria-state-mapper/src/aria_state_mapper/playwright_integration/aria_snapshot.py:104-201 | A snapshot whose lines are all blank or comments, the empty snapshot included, parses to the bare `root` node with no children and no attributes. |
| AriaSnapshot.ParseOutline | packages/aria-state-mapper/src/aria_state_mapper/playwright_integration/aria_snapshot.py:104-201 | The parsed tree's pre-order (role, name) outline is the root followed by the nodes of the node lines, in input order. |
| AriaSnapshot.RunSnoc | packages/aria-state-mapper/src/aria_state_mapper/playwright_integration/aria_snapshot.py:108-199 | Running the lines plus one more gives one more step after the run of the lines. |
| AriaSnapshot.BuildTree | packages/aria-state-mapper/src/aria_state_mapper/playwright_integration/aria_snapshot.py:104-201 | The loop builds exactly the root of the functional run over the same lines. Its outline is the root followed by every node line's node, in order. |
| ElementLocator.ParseRoleValue | packages/aria-state-mapper/src/aria_state_mapper/playwright_integration/element_locator.py:74-83 | Always a role query with a stripped role. A name is passed only when non-empty, and only when the value had a colon. Without a colon the query is the stripped value alone. |
| ElementLocator.RoleValueRoundTrip | packages/aria-state-mapper/src/aria_state_mapper/playwright_integration/element_locator.py:74-81 | `role:name` with stripped parts and a colon-free role is read back as that role and name. |
| ElementLocator.RoleWithoutName | packages/aria-state-mapper/src/aria_state_mapper/playwright_integration/element_locator.py:76-83 | A bare role queries the role alone. |
| ElementLocator.RoleWithBlankName | packages/aria-state-mapper/src/aria_state_mapper/playwright_integration/element_locator.py:76-83 | A role whose part after the colon is empty or all whitespace queries the role alone. |
| ElementLocator.TryStrategy | packages/aria-state-mapper/src/aria_state_mapper/playwright_integration/element_locator.py:74-102 | Label, text and placeholder query their value. Name queries the CSS selector `[name='<value>']` and href queries `a[href*='<value>']`, so both selectors contain the value. An unknown strategy uses its value as a CSS selector. |
| ElementLocator.LocateFrom | packages/aria-state-mapper/src/aria_state_mapper/playwright_integration/element_locator.py:45-59 | None exactly when no remaining candidate is present with a positive count. Otherwise it returns the first such candidate. |
| ElementLocator.Locate | packages/aria-state-mapper/src/aria_state_mapper/playwright_integration/element_locator.py:45-59 | None exactly when no priority strategy is present with a positive count. Otherwise it returns the query of the first such strategy in the order role, label, text, name, placeholder, href. |
| ElementLocator.LocateIgnoresOtherKeys | packages/aria-state-mapper/src/aria_state_mapper/playwright_integration/element_locator.py:45-102 | Keys outside the priority list never affect the result, so the CSS fallback is unreachable from locating. |
| ElementLocator.LocateRaisedIsSkipped | packages/aria-state-mapper/src/aria_state_mapper/playwright_integration/element_locator.py:52-57 | A count that raises is skipped exactly like a count of zero. |
| UiStates.NewUIState | packages/model-resilience-core/src/model_resilience_core/models/ui_state.py:41-49 | A new state has the given id and type, the clock reading as discovery time, and every other field at its default. |
| UiStates.Equal | packages/model-resilience-core/src/model_resilience_core/models/ui_state.py:55-59 | Two states are equal exactly when they differ at most outside the id, in any of the other eight fields. |
| UiStates.Hash | packages/model-resilience-core/src/model_resilience_core/models/ui_state.py:51-53 | Every state equal to a state hashes like it, whatever the string hash. |
| UiStates.EqualIsEquivalence | packages/model-resilience-core/src/model_resilience_core/models/ui_state.py:55-59 | State equality is reflexive, symmetric and transitive. |
| UiStates.EqualStatesHashEqually | packages/model-resilience-core/src/model_resilience_core/models/ui_state.py:51-59 | Equal states hash equally, whatever the string hash. |
| UiStates.EqualityIgnoresAllButId | packages/model-resilience-core/src/model_resilience_core/models/ui_state.py:55-59 | A state equals, in both directions, and hashes like any state with its id, whatever that state's other eight fields hold. |
| StateTransitions.NewTransition | packages/model-resilience-core/src/model_resilience_core/models/state_transition.py:40-48 | A new transition has the given ids and action, empty locators and metadata, no action data, no timestamp and success rate 1.0. |
| StateTransitions.Str | packages/model-resilience-core/src/model_resilience_core/models/state_transition.py:16-20 | A plain-string action prints as itself. An enumeration member prints as `ActionType.` followed by its name, which is never its value. |
| StateTransitions.Trigger | packages/model-resilience-core/src/model_resilience_core/models/state_transition.py:51-54 | The legacy `trigger` reads `trigger_locators`. |
| StateTransitions.SetTrigger | packages/model-resilience-core/src/model_resilience_core/models/state_transition.py:56-59 | Assigning `trigger` sets `trigger_locators` to the value and changes nothing else. |
| StateTransitions.Equal | packages/model-resilience-core/src/model_resilience_core/models/state_transition.py:65-73 | Two transitions are equal exactly when their printed action types agree and they differ at most in id, action value, locators, data, success rate, metadata and timestamp. |
| StateTransitions.Hash | packages/model-resilience-core/src/model_resilience_core/models/state_transition.py:61-63 | Every transition equal to a transition hashes like it, whatever the tuple hash. |
| StateTransitions.TriggerRoundTrip | packages/model-resilience-core/src/model_resilience_core/models/state_transition.py:50-59 | Setting `trigger` and reading either name gives the value back, and nothing else changes. |
| StateTransitions.EqualIsEquivalence | packages/model-resilience-core/src/model_resilience_core/models/state_transition.py:65-73 | Transition equality is reflexive, symmetric and transitive. |
| StateTransitions.EqualTransitionsHashEqually | packages/model-resilience-core/src/model_resilience_core/models/state_transition.py:61-73 | Equal transitions hash equally, whatever the tuple hash. |
| StateTransitions.EqualityIgnoresPayload | packages/model-resilience-core/src/model_resilience_core/models/state_transition.py:65-73 | Transition id, locators, rate, action data and metadata play no part in equality. |
| StateTransitions.StrSeparatesMembers | packages/model-resilience-core/src/model_resilience_core/models/state_transition.py:16-72 | The three action types print differently. |
| StateTransitions.EnumDiffersFromItsValue | packages/model-resilience-core/src/model_resilience_core/models/state_transition.py:43-72 | A transition with an enum action differs from one with that action's plain string value, because the enum prints as `ActionType.X`. |
| StateMachineDiscovery.NewEngine | packages/aria-state-mapper/src/aria_state_mapper/discovery/state_machine_discovery.py:35-41 | The engine keeps the URL and credentials. The configuration is the given one or empty. There are no states and no transitions. |
| StateMachineDiscovery.ExportState | packages/aria-state-mapper/src/aria_state_mapper/discovery/state_machine_discovery.py:66-75 | The record copies id, type, fingerprint, visited and depth. Its id decides equality: a state equals the exported one exactly when it has the record's id. |
| StateMachineDiscovery.ExportTransition | packages/aria-state-mapper/src/aria_state_mapper/discovery/state_machine_discovery.py:77-82 | The exported `trigger` is the transition's `trigger_locators`, read through the alias. |
| StateMachineDiscovery.ExportGraph | packages/aria-state-mapper/src/aria_state_mapper/discovery/state_machine_discovery.py:58-85 | One record per stored state, in insertion order, copying id, type, fingerprint, visited and depth. One record per transition, in list order, copying source, target, action and trigger. |
| StateMachineDiscovery.FreshEngineExportsEmpty | packages/aria-state-mapper/src/aria_state_mapper/discovery/state_machine_discovery.py:40-85 | A fresh engine exports empty state and transition lists. |
| StateMachineDiscovery.ExportAppendState | packages/aria-state-mapper/src/aria_state_mapper/discovery/state_machine_discovery.py:66-75 | Storing a state under a new key appends exactly its record, leaves the transitions alone and keeps the keys distinct. |
| StateMachineDiscovery.ExportAppendTransition | packages/aria-state-mapper/src/aria_state_mapper/discovery/state_machine_discovery.py:76-84 | Recording one more transition appends exactly its record and leaves the states alone. |
| StateMachineDiscovery.ExportKeepsTransitionIdentity | packages/aria-state-mapper/src/aria_state_mapper/discovery/state_machine_discovery.py:76-84 | Two transitions are equal exactly when their records agree on source, target and printed action. |
| StateMachineDiscovery.ExportIgnoresUnexportedFields | packages/aria-state-mapper/src/aria_state_mapper/discovery/state_machine_discovery.py:58-85 | Fields the export leaves out never change it. |
| AriaSnapshot.StepOutline | packages/aria-state-mapper/src/aria_state_mapper/playwright_integration/aria_snapshot.py:187-199 | Adding one node line appends exactly that node's (role, name) to the pre-order outline. |
| StateClassifier.FingerprinterSignals | packages/aria-state-mapper/src/aria_state_mapper/discovery/state_classifier.py:34-135 | On any fingerprint built by the fingerprinter, the dialog and table checks never fire and no alert or status landmark is present. |
| StateClassifier.PageRules | packages/aria-state-mapper/src/aria_state_mapper/discovery/state_classifier.py:98-141 | A page classification comes only from the logged-in rule or the default rule. |
| AccessibilityExtractor.SameRoleShapeAgrees | packages/model-resilience-core/src/model_resilience_core/fingerprinting/accessibility_extractor.py:34-45 | Trees with the same roles and shape agree at every depth, so names never reach the hash. |
| ElementLocator.LocateFirstHit | packages/aria-state-mapper/src/aria_state_mapper/playwright_integration/element_locator.py:45-59 | Conversely, when a priority candidate hits and no earlier one does, that candidate is the result. |
| StateMachineDiscovery.ExportShowsAssignedTrigger | packages/aria-state-mapper/src/aria_state_mapper/discovery/state_machine_discovery.py:77-82 | A trigger assigned through the legacy alias is what the export shows. |
| StateMachineDiscovery.ExportKeepsStateIdentity | packages/aria-state-mapper/src/aria_state_mapper/discovery/state_machine_discovery.py:66-75 | Two states are equal exactly when their exported records carry the same id. |
## Left out

- Browser I/O is out: capturing a state and reading the main heading from the page, and the Playwright calls in the locator. The page is an oracle from queries to element counts or a raised error.
- Exploration (`discover`, `_explore_state`) is an empty placeholder in the system, so only the constructor and `export_graph` of the engine are modelled. The engine is an immutable value, so "export does not change the engine" holds by construction.
- Floating point is modelled as exact reals. Results such as 0.14 and 0.05 are the exact values, and a Python float may differ from them in the last bit.
- Logging and `**kwargs` extras are out.
- The role `None` of a node is modelled as the empty role. The fingerprinter never meets it from parsed snapshots, which always give a non-empty role.
- `Strings.Lower`/`Strings.Upper` convert ASCII letters only. `str.isdigit` is modelled as ASCII digits. Unicode case mapping and digits are out.
- `urllib.parse.parse_qs` is not modelled directly. A parameter splits a query into its `(key, value)` pairs, as `parse_qsl` does, and `RouteParams` rebuilds `parse_qs`'s grouping of repeated keys into lists from those pairs. The route parameters are stated in terms of that parameter's output.
- `SimilarityMetrics.TextSimilarity`: the `difflib.SequenceMatcher` ratio is a parameter. The contract fixes only the equal and empty cases.
- `StateComparer.CalculateSimilarity`: the style weight is declared but never scored, as in the source, so the default maximum is 0.99. `STRONG_MATCH`/`WEAK_MATCH` are unused constants and are not modelled.
- `StateComparer.NewComparer` takes a full weight record, so the source's `KeyError` for a custom weights dict that misses a dimension is not modelled.
- Python dict order is modelled by sequences where it matters (stored states, key-landmark slots). Maps are used where only the contents matter.
- `UiStates` and `StateTransitions` equality against a non-state object (`NotImplemented`) is out: both sides of every comparison are of the modelled type.
- The classifier is modelled on fingerprints whose summary or actionables may be absent. The source's crash on an explicit `None` actionables value passed as a dict entry is not reachable from the typed record.
- `AriaSnapshot.ParseLine`: the `else` of the `text:` branch is not modelled. Its pattern `text:\s*"?([^"]*)"?` always matches after `text:`, so that branch is unreachable. The regular expressions are modelled as explicit matchers (`UrlMatchAt`, `NameMatch`, `AttrOpenAt`). Attribute keys `role`, `name` and `children` are dropped: the first two are overwritten in the source and the third would break it.
- `StateMachineDiscovery.NewEngine` models `config or {}`: an empty dict and `None` both give the empty configuration, which is what the contract states.

## Where the code and its description differ

The model follows the code in each case.

- The comparer scores two identical fingerprints that hold only a URL pattern and a title at 0.14, not 1.0, because absent semantic and functional parts score 0.0 (`StateComparer.TitleAndUrlOnlySelf`). The package's matching test expects a perfect score (packages/model-resilience-core/tests/test_matching.py:36).
- The URL pattern strips leading and trailing slashes: `/admin/config` gives `admin/config` (`StateFingerprinter.UrlPatternOfPath`).
- Parsing an empty snapshot gives the bare `root` node, not an empty dict (`AriaSnapshot.OnlyCommentsIsRoot`).
- Name normalisation deletes `#` and `!` and turns `/`, `-` and `.` into `_`.
- The accessibility extractor and the state fingerprinter use different landmark and interactive role sets (six against eight landmarks; `menuitem` against `searchbox`/`spinbutton`).
- The comment beside the interactive-count score says it allows a 20% variance and gives 8 against 10 elements as its example. The code scores that pair at 0.0 and gives full marks only to equal counts (`StateComparer.CountEightOfTen`, `StateComparer.CountScore`).
- `ActionType` has exactly three members, with values `click`, `fill_form` and `navigate`.
- The locator tries label before text and name before placeholder, and a key outside its priority list is never tried (`ElementLocator.LocateIgnoresOtherKeys`).
- On fingerprints built by the fingerprinter, the classifier's dialog, table, alert and status checks can never fire, so the modal and success types are unreachable (`StateClassifier.ClassifyFingerprinterOutput`).
