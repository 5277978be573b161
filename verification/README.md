# z3stringnet core, modelled in Dafny

z3stringnet simulates a Z3 string net on an `Lx × Ly` torus. Each edge of
the square lattice carries a link that is `In`, `Out` or `Blank` as seen
from one endpoint. The same edge read from the other endpoint is the
flipped value. Only the "real" sublattice is stored: the sites with
`x + y` even, `Lx·Ly/2` vertices, each with four links. A "fake" site's
links are read from its four real neighbours and flipped.

The model covers:

- **Storage** (`Datamodel`, `LatticeStore`): vertices, the blank lattice
  builder, the position ↔ coordinate maps, reading and writing a stored
  link, the implied view of a fake site, and the wrapping step of a bound
  point (`Cluster`).
- **Updates** (`LatticeUpdates`): the `Z3String` walker. Its `raise_step`
  raises the crossed link when it leaves a real site, and lowers the
  flipped link after it arrives from a fake one. Also the clockwise
  plaquette update and the random walk that runs until it returns to its
  start.
- **Gauss law** (`GaussLaw`): the divergence of a site, meaning the sum of
  its link charges, taken mod 3. A step changes it by +1 at the walk's
  start and −1 at its end, so a closed walk keeps every site neutral. On a
  neutral lattice the winding self-check of the variance estimator cannot
  fire.
- **Cluster sizing** (`ClusterSize`): the iterator's depth-first traversal
  of the sites joined by non-Blank links, one `next` at a time. This
  includes its invariant and its progress measure. A completed traversal
  has marked exactly the sites joined to its seed by filled links.
- **Estimators**: the winding-number variance estimator's two parallel
  sums and their mod-3 agreement check (`WindingVariance`), the total link
  count (`TotalLinkCount`), the per-site in/out/total density counts
  (`Density`), and the four origin correlation functions
  (`CorrelationOrigin`). `LinkCounts` holds the per-site counter they
  share.
- **Output** (`Oio`): the plaquette letters, the link names used in the
  vertex text, and the style-2 configuration line, with a decoder proving
  the line round-trips. Also the style-1 writer's fake vertex.

Panics and `assert!`s in the code become `Failure(fault)` results. The
cluster iterator's panics (empty stack, empty walk list, a site of
another cluster, a step onto a site with no filled links) are faults in
`Next`. A stored index past the end of a vector is `IndexOutOfRange`. The
winding check is `WindingMismatch`. Randomness becomes an argument: the
drawn point of `get_rand_point`, and the sequence of directions drawn by
`random_walk_update`.

Facts about the code that the model keeps:

- **Vertex index.** The builder lays the stored vertices out row by row
  (`lattice.rs:60-72`), so a real site's own position is
  `y·(Lx/2) + x/2`. `get_link_from_point` indexes `x + y` instead, and
  reads another site's vertex (see Findings). Only
  `LatticeStore.GetLinkFromPoint` keeps that index. The lookups whose
  bodies are not modelled use the row-by-row index, so the results about
  the walker and everything built on it hold for that corrected store
  (see Left out).
- **Winding check.** The variance estimator compares its two parallel
  winding sums only after reducing each mod 3
  (`winding_variance_estimator.rs:114-117`, `158-161`), and the model
  checks the same.
- **Walker return value.** `raise_step` returns nothing.
- **Absent operations.** There is no Metropolis accept/reject, no
  `number_filled_links` and no `count_non_blank_links`.
  `link_number_tuning` is a field of `Update` that nothing reads
  (`lattice_updates/mod.rs:18`). `build_z3_striped_lat` is imported by
  `main.rs`, but its only call is commented out.

## Model

| member | source | states |
|---|---|---|
| Datamodel.FlipLink | src/estimators/winding_variance_estimator.rs:92-104 | flipping keeps Blank as Blank and turns In into Out and Out into In: a non-Blank link never equals its flip |
| Datamodel.Raise | src/lattice_updates/mod.rs:123 | raising always changes a link, and also changes how the other endpoint sees it |
| Datamodel.Lower | src/lattice_updates/mod.rs:138 | lowering is undone by raising |
| Datamodel.RaiseHasOrderThree | src/lattice_updates/mod.rs:111-117 | three raises give back the original link (Z3), and lowering after raising is the identity |
| Datamodel.FlipLowerIsRaiseFlip | src/lattice_updates/mod.rs:130-131 | lowering seen from the far end is raising seen from the near end, which is why the walker may lower the flipped link after stepping; flip is an involution |
| Datamodel.FlipDirection | src/lattice_updates/mod.rs:136 | the reversed direction differs from the original and pairs N with S and E with W |
| Datamodel.WithLink | src/datamodel/lattice.rs:28-33 | writing one direction of a vertex sets that link and leaves the other three links and the coordinate alone |
| Datamodel.Add | src/datamodel/cluster.rs:57 | adding an increment to a bound point keeps its torus size and lands inside the torus |
| Datamodel.AddIsCongruent | src/datamodel/cluster.rs:57 | the wrapped result is congruent to the plain sum in each coordinate, modulo that side of the torus |
| Datamodel.GetRandPoint | src/datamodel/mod.rs:41-49 | the older `Update` draws its working location inside the lattice and keeps the lattice size |
| Datamodel.StubUpdate | src/datamodel/mod.rs:50-57 | the older `update` only draws a point: the lattice comes back unchanged |
| LatticeStore.GetLinkFromPoint | src/datamodel/lattice.rs:19-42 | as written: a fake site is refused, a real site whose index `x + y` is past the vector is out of range, and otherwise the link is read from position `x + y` |
| LatticeStore.YFromVertexVecPosition | src/datamodel/lattice.rs:93-99 | as written: positions above `Lx·Ly/2` are refused, and otherwise the row is the one whose first position covers `2·position` |
| LatticeStore.XFromVertexVecPosition | src/datamodel/lattice.rs:79-91 | the column is on the torus and congruent to `2·position`, plus one on odd rows, modulo `Lx` |
| LatticeStore.YFromVertexVecPositionChecked | src/datamodel/lattice.rs:93-99 | corrected guard: exactly the positions of stored vertices are accepted, every row returned is on the lattice, and it agrees with the original on them |
| LatticeStore.YFromAcceptsOnePastEnd | src/datamodel/lattice.rs:94 | on any even-width lattice the original guard accepts position `Lx·Ly/2`, one past the last vertex, and returns row `Ly`, which is off the lattice; the corrected guard refuses it |
| LatticeStore.VertexPoint | src/datamodel/lattice.rs:67-70 | the coordinate the builder gives each stored position is on the lattice |
| LatticeStore.VertexPointClosedForm | src/datamodel/lattice.rs:79-99 | for an even width `2h`, position `i` sits at row `i / h`, column `2(i mod h)` plus the row's parity |
| LatticeStore.VertexIndex | src/datamodel/lattice.rs:26 | the intended index of a real site, `y·(Lx/2) + x/2`, is a valid position of the vertex vector |
| LatticeStore.VertexIndexIsInverse | src/datamodel/lattice.rs:60-72 | the builder's coordinate of a real site's index is that site |
| LatticeStore.VertexPointIsStored | src/datamodel/lattice.rs:60-72 | every built coordinate is on the real sublattice, and its index is its position, so the two maps are mutually inverse |
| LatticeStore.BuildBlankLat | src/datamodel/lattice.rs:46-76 | the built lattice has `Lx·Ly/2` vertices, all links Blank, each at its builder coordinate |
| LatticeStore.BuiltVerticesCoverRealSublattice | src/datamodel/lattice.rs:55-72 | the built vertices are exactly the real sites, each once: on the lattice, pairwise distinct, and covering every real site |
| LatticeStore.GetLinkFromPointReadsWrongVertex | src/datamodel/lattice.rs:26 | on a blank 4×4 lattice, reading real site (2,0) succeeds but reads position 2, which holds site (1,1); the site's own position is 1 |
| LatticeStore.StoredVertexIsUnique | src/datamodel/lattice.rs:60-72 | in a laid-out lattice each stored vertex is a real site whose index is its own position |
| LatticeStore.SafeGetReadsVertexAtPoint | src/datamodel/lattice.rs:19-33 | corrected read: a real site's link is read from the one stored vertex whose coordinate is that site |
| LatticeStore.SetLink | src/datamodel/lattice.rs:28-33 | writing a stored link changes that link only: every other real site and direction reads as before |
| LatticeStore.SetLinkKeepsLayout | src/datamodel/lattice.rs:28-33 | writing a link never moves a vertex's coordinate |
| LatticeStore.OutRaiseLink | src/lattice_updates/mod.rs:123 | the named stored link is raised and every other stored link is unchanged |
| LatticeStore.OutLowerLink | src/lattice_updates/mod.rs:138 | the named stored link is lowered (raising it again restores it) and every other stored link is unchanged |
| LatticeStore.Neighbour | src/lattice_updates/mod.rs:126-127 | one step always crosses between the real and the fake sublattice |
| LatticeStore.StepCoordinates | src/datamodel/cluster.rs:39-61 | a step moves one unit in its direction and wraps at each edge of the torus |
| LatticeStore.GetVertexFromPoint | src/oio/mod.rs:184-198 | a real site shows its stored links; a fake site shows, in each direction, the flipped stored link of the neighbour there |
| LatticeStore.EdgeSeenFromBothEnds | src/datamodel/lattice.rs:13-15 | the two endpoints of any edge see flipped values of each other |
| Cluster.IncrementLocation | src/datamodel/cluster.rs:39-61 | a step keeps the torus size and lands on the torus |
| Cluster.DecrementLocation | src/estimators/cluster_size_estimator.rs:106 | the reverse step keeps the torus size and lands on the torus |
| Cluster.DecrementUndoesIncrement | src/estimators/cluster_size_estimator.rs:133-138 | stepping and stepping back in the same direction, in either order, returns to the start |
| Cluster.ClockwiseLoopCloses | src/lattice_updates/mod.rs:45-57 | N, E, S, W from any site returns to it, as the plaquette update asserts |
| Cluster.IncrementLocationExample | src/datamodel/cluster.rs:24-35 | on a 4×4 torus, E from (1,2) reaches (2,2) |
| Cluster.FilledDirections | src/datamodel/cluster.rs:63-66 | no directions exactly when all four links are Blank; otherwise the directions listed are the non-Blank ones, each once, at most four |
| Cluster.ClockwiseWalkCloses | src/lattice_updates/mod.rs:45-57 | the clockwise walk as a walk closes on every torus |
| LatticeUpdates.GetRandPoint | src/lattice_updates/mod.rs:21-32 | the drawn working location is on the lattice and the size is unchanged |
| LatticeUpdates.IncrementCurLoc | src/lattice_updates/mod.rs:90-110 | the walker's own step moves it as the shared step does and changes nothing else |
| LatticeUpdates.RaiseStep | src/lattice_updates/mod.rs:111-141 | after a step the walker is one step on in direction `d` over the same lattice size, with the same start |
| LatticeUpdates.RaiseStepRaisesOneLink | src/lattice_updates/mod.rs:111-141 | from either sublattice, the crossed edge is raised as seen from where the step began, its one stored slot changes, and every other stored link is unchanged |
| LatticeUpdates.UpdatePlaquette | src/lattice_updates/mod.rs:33-58 | the plaquette update never faults (the return assertion always holds), keeps the lattice well formed, and equals the clockwise walk from the drawn point |
| LatticeUpdates.RandomWalkUpdate | src/lattice_updates/mod.rs:59-77 | it stops at the first return to the start, after an even number of steps, with the lattice that walk leaves. It fails only when no prefix of the drawn directions returns |
| LatticeUpdates.WalkUntilClosed | src/lattice_updates/mod.rs:67-76 | the loop runs until the walker is back at the start, and no earlier prefix returned |
| LatticeUpdates.ClosedWalkHasEvenLength | src/lattice_updates/mod.rs:72-76 | on an even torus any walk that returns to its start has even length |
| LatticeUpdates.WalkParity | src/lattice_updates/mod.rs:126-127 | after `k` steps the walker is on the sublattice it started on exactly when `k` is even |
| LatticeUpdates.StepParity | src/lattice_updates/mod.rs:126-127 | every step switches between the real and fake sublattice |
| GaussLaw.LinksAfterStep | src/lattice_updates/mod.rs:111-141 | a step changes exactly the crossed edge: raised from the near end, its flip from the far end, every other (site, direction) unchanged |
| GaussLaw.DivAfterStep | src/lattice_updates/mod.rs:111-141 | a step changes each site's divergence, mod 3, by +1 at the site left and −1 at the site reached, and not at all elsewhere |
| GaussLaw.DivAfterWalk | src/lattice_updates/mod.rs:59-77 | after a walk each site's divergence changes, mod 3, by +1 at its start and −1 at its end |
| GaussLaw.ClosedWalkKeepsNeutral | src/lattice_updates/mod.rs:72-76 | a walk that ends where it began keeps a neutral lattice neutral |
| GaussLaw.BlankIsNeutral | src/datamodel/lattice.rs:46-76 | the blank lattice is neutral |
| GaussLaw.UpdatePlaquetteKeepsNeutral | src/lattice_updates/mod.rs:33-58 | the plaquette update keeps a neutral lattice neutral |
| GaussLaw.ClosedRandomWalkKeepsNeutral | src/lattice_updates/mod.rs:59-77 | the random walk's result, which always closes, keeps a neutral lattice neutral |
| GaussLaw.DivTotalIsWindingDifference | src/estimators/winding_variance_estimator.rs:59-117 | summing the divergence along the check line gives the check sum minus the primary sum |
| GaussLaw.NeutralPassAgrees | src/estimators/winding_variance_estimator.rs:114-117 | on a neutral lattice each pass's two sums agree mod 3 |
| GaussLaw.NeutralPassesCheck | src/estimators/winding_variance_estimator.rs:114-161 | on a neutral lattice neither of the estimator's two assertions can fail |
| WindingVariance.Charge | src/estimators/winding_variance_estimator.rs:106-111 | a link adds +1 (Out), −1 (In) or 0 (Blank) to a winding sum |
| WindingVariance.ChargeLaws | src/estimators/winding_variance_estimator.rs:92-104 | flipping a link negates its charge, and raising adds one, mod 3 |
| WindingVariance.ModuloWinding | src/estimators/winding_variance_estimator.rs:114-115 | the reduced winding number is in 0..3 and congruent to the raw sum |
| WindingVariance.ModuloWindingAgrees | src/estimators/winding_variance_estimator.rs:114-117 | two sums reduce alike exactly when they differ by a multiple of three |
| WindingVariance.ReadSites | src/estimators/winding_variance_estimator.rs:73-89 | every site read is on the real sublattice: (0,i) and (2,i) on even rows, (1,i) for both on odd rows (transposed for the horizontal pass) |
| WindingVariance.Reading | src/estimators/winding_variance_estimator.rs:88-104 | after the parity flips, the primary and check readings are the edges crossing lines 0 and 1, seen from those lines |
| WindingVariance.ReadingSeesLines | src/estimators/winding_variance_estimator.rs:73-104 | the stored link read at each index, flipped on alternate rows, is the link seen across the line |
| WindingVariance.SumPass | src/estimators/winding_variance_estimator.rs:73-112 | one pass yields the winding sums of line 0 and line 1 |
| WindingVariance.Measure | src/estimators/winding_variance_estimator.rs:59-164 | it fails exactly when either pass's two sums disagree mod 3; otherwise it appends the raw primary sums |
| WindingVariance.Clear | src/estimators/winding_variance_estimator.rs:201-204 | both recorded series are emptied |
| ClusterSize.New | src/estimators/cluster_size_estimator.rs:195-227 | a new estimator holds the lattice and is not running, with no site marked, cluster number 0, no covered points, an empty stack and walk, and both locations at the origin |
| ClusterSize.InitCalculationLocation | src/estimators/cluster_size_estimator.rs:176-194 | starting at a site marks it with the current cluster number, pushes a frame of exactly its filled directions, records it as covered, and puts both locations there |
| ClusterSize.Next | src/estimators/cluster_size_estimator.rs:77-171 | the only faults are the four panics, an empty stack faults exactly when empty, marks only grow, completion ends the run, and every other step leaves the running flag as it was |
| ClusterSize.NextStepEffects | src/estimators/cluster_size_estimator.rs:104-162 | each kind of step does its own thing. Completion needs one empty frame and no walk. Backing up drops the last direction and steps back along it. A step onto this cluster is undone. Marking extends the walk by one direction onto an unmarked site and marks only that site |
| ClusterSize.NewIsIdle | src/estimators/cluster_size_estimator.rs:20-26 | a new estimator sits at the origin and satisfies the traversal invariant; calling `next` before a start panics on the empty stack |
| ClusterSize.InitEstablishesInv | src/estimators/cluster_size_estimator.rs:176-194 | starting at any site of an idle estimator establishes the traversal invariant |
| ClusterSize.IsolatedSeedCompletesAtOnce | src/estimators/cluster_size_estimator.rs:186-191 | from a site with no filled link the first `next` completes, with only that site marked |
| ClusterSize.StepLandsOnFilledSite | src/estimators/cluster_size_estimator.rs:156-160 | a step along a filled link reaches a site with a filled link, so the "no filled links" panic cannot happen |
| ClusterSize.NextNeverFaultsWhileRunning | src/estimators/cluster_size_estimator.rs:85-160 | while a traversal runs under the invariant, `next` never panics |
| ClusterSize.NextSucceedsWhen | src/estimators/cluster_size_estimator.rs:85-160 | sufficient conditions ruling out each of the four panics |
| ClusterSize.BackUpKeepsInv | src/estimators/cluster_size_estimator.rs:85-109 | backing up preserves the invariant |
| ClusterSize.FoundClusteredKeepsInv | src/estimators/cluster_size_estimator.rs:124-140 | undoing a step onto this cluster preserves the invariant |
| ClusterSize.MarkKeepsFrames | src/estimators/cluster_size_estimator.rs:154-162 | marking a new site keeps the walk's shape, the marks and the frame contents consistent |
| ClusterSize.MarkKeepsClosed | src/estimators/cluster_size_estimator.rs:154-162 | after marking, every filled link out of a marked site leads to a marked site or is still pending on the stack |
| ClusterSize.MarkKeepsInv | src/estimators/cluster_size_estimator.rs:154-162 | marking a new site preserves the invariant |
| ClusterSize.NextKeepsInv | src/estimators/cluster_size_estimator.rs:77-171 | every `next` of a running traversal succeeds and preserves the invariant |
| ClusterSize.CompletedClusterIsClosed | src/estimators/cluster_size_estimator.rs:85-101 | once the traversal completes, the marked sites are closed under filled links: the whole cluster was found |
| ClusterSize.NextMakesProgress | src/estimators/cluster_size_estimator.rs:77-171 | each `next` either marks a new site or shrinks the pending directions, so the traversal ends |
| ClusterSize.SizeCluster | src/estimators/cluster_size_estimator.rs:85-101 | driving `next` to completion from a site keeps older marks and marks exactly that site's cluster: every site reachable from it along filled links ends up marked, and every newly marked site is reachable from it |
| ClusterSize.InitIsSound | src/estimators/cluster_size_estimator.rs:176-194 | starting at a site, the only new mark is that site, reached by the empty walk |
| ClusterSize.NextKeepsSound | src/estimators/cluster_size_estimator.rs:104-162 | every `next` keeps the walk on filled links and marks only a site reached from the start along filled links: the new mark is the end of the walk extended by a direction taken from the top frame |
| ClusterSize.ClosedHoldsReachable | src/estimators/cluster_size_estimator.rs:85-101 | a marked set closed under filled links that holds the start of a walk along filled links holds its end |
| LinkCounts.Bump | src/estimators/density_estimator.rs:145 | `+= 1` on one direction adds one there and changes no other count or the coordinate |
| LinkCounts.NewCounts | src/estimators/density_estimator.rs:51-60 | sizing makes `Lx·Ly/2` zero counters, each carrying its vector position's coordinate |
| LinkCounts.ClearCounts | src/estimators/density_estimator.rs:108-115 | clearing zeroes every counter and keeps the coordinates |
| TotalLinkCount.New | src/estimators/total_link_count_estimator.rs:33-36 | the count starts at zero |
| TotalLinkCount.Clear | src/estimators/total_link_count_estimator.rs:52-54 | clearing returns to the fresh state |
| TotalLinkCount.Measure | src/estimators/total_link_count_estimator.rs:68-107 | a measurement adds the number of non-Blank stored links |
| TotalLinkCount.FilledLinksAreFilledDirections | src/estimators/total_link_count_estimator.rs:69-105 | a vertex contributes as many links as it has filled directions for the cluster traversal |
| TotalLinkCount.NonBlankCountBounds | src/estimators/total_link_count_estimator.rs:68-107 | a measurement adds between zero and four per stored vertex |
| TotalLinkCount.AllBlankCountsNothing | src/estimators/total_link_count_estimator.rs:68-107 | all-Blank vertices add nothing |
| TotalLinkCount.MeasuringBlankLatticeAddsNothing | src/estimators/total_link_count_estimator.rs:68-107 | measuring a freshly built lattice adds nothing |
| Density.New | src/estimators/density_estimator.rs:28-67 | three zeroed, equally sized tables of `Lx·Ly/2` counters, totals consistent |
| Density.Clear | src/estimators/density_estimator.rs:108-115 | every counter of all three tables is zeroed and the size is kept |
| Density.CountLink | src/estimators/density_estimator.rs:143-153 | one link counts into the in or out table by orientation, and into the total unless Blank |
| Density.CountVertex | src/estimators/density_estimator.rs:142-187 | a vertex's four links count as four independent link counts |
| Density.Measure | src/estimators/density_estimator.rs:138-188 | it faults exactly when a vertex past the tables has a filled link; otherwise each table becomes the measured table of all vertices |
| Density.MeasuredCount | src/estimators/density_estimator.rs:142-187 | a slot's count rises by one exactly when its vertex's link in that direction is of the counted kind |
| Density.CountedCount | src/estimators/density_estimator.rs:142-187 | counting a vertex raises each direction by its indicator and keeps the coordinate |
| Density.MeasureKeepsConsistent | src/estimators/density_estimator.rs:142-187 | after a measurement each total still equals in plus out, slot by slot |
| Density.MeasureGrowsByAtMostOne | src/estimators/density_estimator.rs:142-187 | a measurement raises each count by zero or one |
| Density.BlankMeasureChangesNothing | src/estimators/density_estimator.rs:142-187 | measuring all-Blank vertices leaves the tables unchanged |
| Density.TotalsAgreeWithLinkCount | src/estimators/density_estimator.rs:142-187 | the total table's grand sum rises by what the total link count estimator adds for the same lattice |
| CorrelationOrigin.New | src/estimators/correlation_origin_estimator.rs:55-104 | four zeroed tables of `Lx·Ly/2` counters |
| CorrelationOrigin.Clear | src/estimators/correlation_origin_estimator.rs:108-116 | all four tables are zeroed and the size is kept |
| CorrelationOrigin.CorrelateVertex | src/estimators/correlation_origin_estimator.rs:213-281 | one vertex counts into the out and in tables of one axis, as the origin link dictates |
| CorrelationOrigin.CorrelateAxis | src/estimators/correlation_origin_estimator.rs:213-281 | one loop iteration for one axis keeps both tables equal to the measurement of the vertices seen so far |
| CorrelationOrigin.Measure | src/estimators/correlation_origin_estimator.rs:186-282 | an empty lattice faults on the origin read, and a slot past the tables faults. Two Blank origin links change nothing. Otherwise each table becomes the measurement of all vertices against its origin link |
| CorrelationOrigin.MeasuredCount | src/estimators/correlation_origin_estimator.rs:213-281 | a slot's count rises by one exactly when its vertex's link in that direction matches the origin's orientation for that channel |
| CorrelationOrigin.HorizontalInCounts | src/estimators/correlation_origin_estimator.rs:215-229 | with an In origin link, the horizontal-in E count rises exactly for E = In and the W count exactly for W = Out; N and S are untouched |
| CorrelationOrigin.VerticalOutCounts | src/estimators/correlation_origin_estimator.rs:264-277 | with an Out origin link, the vertical-out N count rises exactly for N = Out and the S count exactly for S = In; E and W are untouched |
| CorrelationOrigin.BlankOriginsMoveNothing | src/estimators/correlation_origin_estimator.rs:207-211 | with both origin links Blank no vertex touches a slot and all four tables stay as they were |
| CorrelationOrigin.OnlyMatchingChannelMoves | src/estimators/correlation_origin_estimator.rs:213-246 | a table whose orientation differs from the origin link's never changes |
| CorrelationOrigin.OriginCountsItself | src/estimators/correlation_origin_estimator.rs:213-243 | the origin vertex always correlates with itself along its own link |
| CorrelationOrigin.MeasureGrowsByAtMostOne | src/estimators/correlation_origin_estimator.rs:213-281 | a measurement raises each count by zero or one |
| Oio.PlaquettOutString | src/oio/mod.rs:14-45 | only N/E from the lower-left corner and S/W from the upper-right corner are accepted; Blank is "B", and otherwise the letter names the way the link points |
| Oio.PlaquettCornersAgree | src/oio/mod.rs:14-45 | an edge gets the same letter whether it is written from the lower-left corner or, flipped, from the upper-right corner |
| Oio.OutStringRoundTrip | src/oio/mod.rs:47-53 | the link names "In", "Out", "Blank" decode back to their link, and only the name of a link decodes to it |
| Oio.IncrementLoc | src/oio/mod.rs:55-75 | the output module's own step is the shared step |
| Oio.StepCopiesAgree | src/oio/mod.rs:55-75 | the three copies of the step (datamodel, walker, output) agree |
| Oio.RowFits | src/oio/mod.rs:118-121 | each row's cells fit before the end of the line, and the cell without a trailing comma is exactly the last cell of the last row |
| Oio.FlattenAt | src/oio/mod.rs:106-107 | the row-major order of the two loops puts cell (x, y) at position `y·Lx + x` |
| Oio.AppendSite | src/oio/mod.rs:118-138 | one inner-loop iteration appends exactly that cell's text to the line |
| Oio.Grid | src/oio/mod.rs:106-116 | the grid of (E, N) pairs has one row per `y` and `Lx` cells in each |
| Oio.WriteLatticeStyle2 | src/oio/mod.rs:106-141 | the written line is the style-2 encoding of every site's (E, N) links in row-major order |
| Oio.WriteGrid | src/oio/mod.rs:106-141 | the two loops produce the style-2 encoding of the flattened grid |
| Oio.WriteGridRow | src/oio/mod.rs:107-139 | the inner loop appends exactly one row's cells |
| Oio.JoinLayout | src/oio/mod.rs:118-138 | cell `j` occupies characters `4j..4j+3` as digit, comma, digit, comma, with no comma after the last |
| Oio.DigitRoundTrip | src/oio/mod.rs:126-135 | the digits 2, 1, 0 decode back to In, Out, Blank |
| Oio.Style2RoundTrip | src/oio/mod.rs:123-141 | the style-2 line is four characters per site and decodes back to exactly the pairs written |
| Oio.FakeVertexEast | src/oio/mod.rs:184-198 | the fake vertex written after each real one is its east neighbour |
| Oio.FakeVertexIsImpliedVertex | src/oio/mod.rs:184-198 | the style-1 writer's fake vertex, built from soft flips, is the implied vertex at that site |

## Left out

- The GUI, command line, `main`, and all file I/O: output is modelled as the string that would be written, and the estimators' files and headers (`write_standard_header`, `write_total_count`, `write_vec`, `write_2d_vec`) are omitted.
- `finalize_bin_and_write` of every estimator and the variance computation: floating-point division of the accumulated counts.
- Metropolis accept/reject, `number_filled_links`, `count_non_blank_links` and before/after link counts of the walker: there are none in the code.
- `link_number_tuning`: a field of `Update` (`src/lattice_updates/mod.rs:18`) that `main.rs` sets from the weights argument and nothing reads, so the model's walker omits it.
- `build_z3_striped_lat`: imported by `main.rs`, but its only call is commented out; it is not modelled.
- The cluster estimator's empty `measure`, `clear` and `finalize_bin_and_write`, and its unused `cluster_sizes` vector and display text (a `Status` value stands for the text).
- `horizontal_correlation_origin_estimator.rs` and `winding_number_estimator.rs`: outside the core; only the two helpers the variance estimator calls are modelled, as assumptions (below).
- The style-1 vertex row `x,y,N,E,S,W` (`src/oio/mod.rs:173-182`): only the link names it prints (`OutString`) are modelled; no member builds the row.
- The style-1 plaquette rows for the second plaquette of each pair (`src/oio/mod.rs:229-253`): only the fake vertex and the letter of each link (`PlaquettOutString`) are modelled; no member builds a style-1 plaquette row.
- Helpers not modelled from a body, each defined from its name and use: `flip`, `soft_flip` (taken to equal `flip`), raise/lower, the wrapping `+` on `BoundPoint`, `decrement_location`, `directions_of_filled_links` (only a commented-out draft is present, at `src/datamodel/cluster.rs:67-79`; that draft pushes every direction without testing its link, so it would return all four even for an all-Blank vertex, whereas the model follows the doc comment at `cluster.rs:63-66` and the panic text at `cluster_size_estimator.rs:161-162`, keeping only the non-Blank directions and giving none when every link is Blank; the cluster traversal's results rest on that choice), `get_vertex_from_point`, `safe_get_link_from_point`, `out_raise_link`, `out_lower_link`, `Direction::flip`, `get_random_direction`, `simple_add_sub_from_link_direction`, `modulo_winding_number`, `VertexLinkCount::new` and `clear`. Raise is the Z3 cycle Blank → Out → In → Blank, the wrapping add is Euclidean mod the torus size, and the charge is +1 for Out, −1 for In.
- TotalLinkCount.Measure: counts are unbounded integers; the `u64` counter's overflow is not modelled, since it would need 2^64 links.
- Density.Measure: counts are unbounded integers (no `u64` overflow). It requires the three tables to have `vector_size` entries, because the fields are private and only `new` sets them.
- CorrelationOrigin.Measure: same as Density.Measure, for its four tables.
- LatticeStore.SafeGetReadsVertexAtPoint: like every member requiring `WellFormed` or `EvenSize`, it covers even `Lx` and `Ly` only. The real/fake checkerboard only wraps consistently on such a torus, and the bodies of `safe_get_link_from_point` and `get_vertex_from_point`, which would say what happens on an odd one, are not modelled from a body.
- LatticeStore.SafeGetLinkFromPoint, LatticeStore.OutRaiseLink, LatticeStore.OutLowerLink and LatticeStore.GetVertexFromPoint read and write the vertex at `y·(Lx/2) + x/2`, the builder's layout, not at the `x + y` that `get_link_from_point` uses. The walker's comment (`lattice_updates/mod.rs:120`) says it reaches links through `get_link_from_point`, so `LatticeUpdates.RaiseStep`, every `GaussLaw` result, `WindingVariance`, `ClusterSize` and `Oio` are proved for the corrected store, not for a walker that reads through `x + y`.
- ClusterSize: `clustered` is keyed by `Point`, where the code keys its `HashMap` by `BoundPoint`. Every key the traversal inserts carries the lattice's own size (`init_calculation_location` at `cluster_size_estimator.rs:177-181`, and the step at line 155, which keeps the size), so two keys are equal exactly when their locations are, whatever `BoundPoint`'s equality compares, and the two maps hold the same entries.
- LatticeUpdates.RandomWalkUpdate: the random directions are a finite sequence given as an argument, so a walk that has not returned by the end is `DirectionsExhausted` instead of looping on.
- WindingVariance.Measure: requires both sides to be at least 3, since the check line reads column/row 2.
- Unsigned coordinates: `Point` fields are `u64` in the code, but steps add −1 before wrapping; the model uses integers and Euclidean remainder.

## Findings

| source | as written | input that shows it | evidently intended | confidence | as-written member | corrected member |
|---|---|---|---|---|---|---|
| src/datamodel/lattice.rs:26 | `get_link_from_point` indexes the vertex vector at `x + y` | blank 4×4 lattice, real site (2,0): position 2 holds the vertex at (1,1), and the vertex at (2,0) is at position 1 | position `y·(Lx/2) + x/2`, the inverse of the builder's layout | high; not executed | LatticeStore.GetLinkFromPointReadsWrongVertex | LatticeStore.SafeGetReadsVertexAtPoint |
| src/datamodel/lattice.rs:94 | `y_from_vertex_vec_position` rejects only `position > Lx·Ly/2` | 4×4 lattice, position 8: accepted, row 4 returned, which is off the lattice | reject `position >= Lx·Ly/2` | high; not executed | LatticeStore.YFromAcceptsOnePastEnd | LatticeStore.YFromVertexVecPositionChecked |
