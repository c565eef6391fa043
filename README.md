# Discrete core of the matter-js physics engine

`lib/matter.js` is a bundled copy of the matter-js 2D rigid-body engine.
This project models in Dafny the parts of it that are bookkeeping and
combinatorics rather than numerics:

- the broadphase grid (`Grid`), which hashes bodies into buckets and counts
  the buckets every two bodies share;
- the narrow-phase gatekeeping (`Detector`, `Detector.canCollide`) and the
  separating-axis test (`SAT`), with the polygon helpers it relies on
  (`Vertices`, `Bounds`, `Vector`);
- the persistent contact records (`Contact`, `Pair`, `Pairs`), which
  classify each frame's collisions into started, active and ended pairs and
  expire idle pairs;
- sleeping (`Sleeping`), making a body static (`Body.setStatic`) and the
  collision group and category counters (`Body.nextGroup`,
  `Body.nextCategory`);
- the world tree (`Composite`), the event registry (`Events`), the shared
  helpers of `Common` (clamp, sign, indexOf, the seeded generator,
  topologicalSort) and the version handling of `Plugin`.

Most source modules become one Dafny module, in a file named after it.
The exceptions:

- `pairs.dfy` (module `Pairs`) holds `Contact`, `Pair` and `Pairs` together;
- `groups.dfy` (module `Groups`) holds `Body.nextGroup` and
  `Body.nextCategory`, apart from `body.dfy`;
- `filter.dfy` (module `Filtering`) holds `Detector.canCollide`, which
  `groups.dfy` also uses;
- `ids.dfy` (module `Ids`) holds the string keys the source builds: the
  ids of pairs, contacts, grid buckets and grid regions.

`wrappers.dfy` holds `Option`, and `strings.dfy` holds JavaScript's
`split`/`join` on one character. Code that updates objects in place becomes
a class with `modifies` clauses:

- `Grid.Grid`, `Pairs.Pairs`, `Body.Body`, `Groups.Counters`,
  `Common.Seeded`, `Events.Emitter`, `Composite.World`;
- `Vertices.Translate` on an array.

Each such method is proved against a specification function of the old
state and its arguments. Each loop of the source is a method proved
against a function that computes the loop's result, such as `ChainOf` for
the monotone-chain loop of `Vertices.hull`. Lemmas state what the source
promises of those functions. Pure code becomes functions and lemmas.

Numbers are exact reals and ids are natural numbers. JavaScript objects used
as dictionaries are maps; where their key order matters (the grid's pair
table, the pairs list) they are a list of keys beside the map. Objects that
the source compares with `===` are told apart by their ids. The bitwise
words of collision filters are `bv32`.

## Model

| member | source | states |
|---|---|---|
| Ids.NatRoundTrip | lib/matter.js:1012-1018 | The decimal rendering of an id in a key is a non-empty digit string that reads back as that id. |
| Ids.NatToStringInjective | lib/matter.js:1012-1018 | Different ids have different decimal renderings. |
| Ids.IntToStringChars | lib/matter.js:908-910 | The rendering of an integer column or row uses only digits and a leading minus sign. |
| Ids.IntToStringInjective | lib/matter.js:908-910 | Different integers have different renderings. |
| Ids.PairIdCanonical | lib/matter.js:1012-1018 | `Pair.id` does not depend on the order of the two bodies. |
| Ids.PairIdInjective | lib/matter.js:1012-1018 | Two pair ids are equal exactly when they name the same two body ids, in either order. |
| Ids.ContactIdInjective | lib/matter.js:780-782 | Two contact ids are equal exactly when body id and vertex index are both equal. |
| Ids.BucketIdInjective | lib/matter.js:908-910 | Two bucket ids are equal exactly when column and row are both equal. |
| Ids.RegionIdInjective | lib/matter.js:899-907 | Two region ids are equal exactly when all four bounds are equal. |
| Vector.AddSubInverse | lib/matter.js:3358-3369 | Adding then subtracting a vector is the identity, and so is the reverse; adding the negation is subtracting. |
| Vector.DotLaws | lib/matter.js:3349-3351 | The dot product is symmetric, distributes over addition and subtraction, and negates with negation. |
| Vector.CrossLaws | lib/matter.js:3352-3357 | The cross product is antisymmetric and zero on equal vectors; `cross3` is the cross product of the two differences and does not change under translation. |
| Vector.PerpOrthogonal | lib/matter.js:3376-3382 | `perp` is orthogonal to its argument and commutes with negation. |
| Bounds.Shift | lib/matter.js:3160-3166 | The shifted box has its lower corner at the given point and keeps its width and height. |
| Bounds.Update | lib/matter.js:3114-3147 | The result is the tight box of the vertices, swept by the velocity when one is given; an empty list leaves the inverted box. |
| Bounds.TightIsTight | lib/matter.js:3123-3137 | The tight box is inverted exactly for no vertices and otherwise well formed; it contains every vertex, and each of its four sides is attained by some vertex. |
| Bounds.SweepContains | lib/matter.js:3138-3146 | Sweeping by a velocity keeps every point of the box inside the result. |
| Bounds.TightTranslate | lib/matter.js:3123-3159 | Moving every vertex by `d` moves the tight box by `d`. |
| Bounds.OverlapsMeansCommonPoint | lib/matter.js:3148-3153 | Two well-formed boxes overlap exactly when some point lies in both. |
| Bounds.OverlapsSymmetric | lib/matter.js:3151-3153 | Overlap does not depend on the order of the boxes. |
| Vertices.Create | lib/matter.js:3401-3414 | One vertex per point, in order, with its own position as index, owned by the body and not internal. |
| Vertices.Translate | lib/matter.js:3460-3474 | Every vertex of the array is moved in place by the vector, scaled when the scalar is given. Nothing else about a vertex changes. |
| Vertices.MovedRoundTrip | lib/matter.js:3460-3474 | Translating by `d` and then by `-d` gives back the vertices. |
| Vertices.Area | lib/matter.js:3440-3449 | The area is half the shoelace sum, its absolute value unless `signed`, and never negative unsigned. |
| Vertices.AreaTranslate | lib/matter.js:3440-3449 | The shoelace sum does not change when the polygon is translated. |
| Vertices.AreaReverse | lib/matter.js:3440-3449 | Listing the vertices the other way round negates the signed shoelace sum, so it flips the sign of the signed area. |
| Vertices.Contains | lib/matter.js:3486-3494 | True exactly when the point is on the non-positive side of every edge, the closing edge included. |
| Vertices.SideIsCross | lib/matter.js:3486-3494 | The edge test is `cross3` of the edge's start, the point and the edge's end. |
| Vertices.ContainsTranslate | lib/matter.js:3486-3494 | Containment does not change when polygon and point move together. |
| Vertices.TriangleContainsCorners | lib/matter.js:3486-3494 | A counterclockwise triangle contains its three corners. |
| Vertices.IsConvex | lib/matter.js:3554-3577 | Null below three vertices or when every turn is zero; false when turns of both signs occur; true otherwise. |
| Vertices.TriangleTurns | lib/matter.js:3554-3577 | Every turn of a triangle equals the orientation of its corners. |
| Vertices.TriangleConvex | lib/matter.js:3554-3577 | A triangle has turns of exactly one sign when its corners are not collinear, and none otherwise. |
| Vertices.SortLex | lib/matter.js:3580-3584 | The sorted copy has the same length and is a permutation of the vertices. |
| Vertices.SortLexSorted | lib/matter.js:3580-3584 | The sorted copy is ordered by x, then by y. |
| Vertices.Chain | lib/matter.js:3585-3598 | One monotone-chain loop of `hull`, popping while the last two points and the next one do not turn strictly left, gives `ChainOf` of all the points. |
| Vertices.PopForFacts | lib/matter.js:3587-3589 | The popping loop keeps a prefix of the chain, non-empty when the chain was. After it the last two points turn strictly left onto the new point, and the first popped point did not. |
| Vertices.ChainShape | lib/matter.js:3585-3598 | The chain starts at the first point and ends at the last one seen. It is no longer than the input and keeps two points once it has seen two. Every consecutive triple turns strictly left, and every chain point is an input point. |
| Vertices.ChainSupports | lib/matter.js:3585-3598 | On points ordered along the sweep, every point seen so far lies on or left of every edge of the chain, and the chain keeps the sweep order. |
| Vertices.HullContains | lib/matter.js:3578-3602 | Every sorted point is inside the hull: on the non-positive side of each of its edges as `contains` tests them. |
| Vertices.HullConvex | lib/matter.js:3578-3602 | A hull of three or more points turns strictly left at every vertex, the wrap-around included, so `isConvex` calls it convex. |
| Vertices.HullParts | lib/matter.js:3599-3601 | The hull is the upper chain without its last point followed by the lower chain without its last point. The first starts at the greatest sorted point and the second at the least, each turning strictly left. |
| Vertices.Hull | lib/matter.js:3578-3602 | Empty for at most one point and made only of input points. Every input point lies inside it. With three or more points it turns strictly left at each one. It splits into an upper part from the greatest point and a lower part from the least, each strictly convex. |
| Vertices.HullShape | lib/matter.js:3578-3602 | The hull of the sorted input is empty for at most one point, holds only input points, and has every input point inside. |
| Vertices.HullConvexity | lib/matter.js:3578-3602 | The hull of the sorted input turns strictly left at every vertex once it has three. |
| SAT.ProjectToAxis | lib/matter.js:1451-1463 | The loop computes the projection `Project` of the vertices on the axis. |
| SAT.ProjectBounds | lib/matter.js:1451-1463 | The projection is ordered; it bounds every vertex's dot product and is attained at both ends. |
| SAT.SeparatingAxis | lib/matter.js:1432-1450 | A non-positive overlap on an axis holds exactly when every vertex of one list projects at or below every vertex of the other. |
| SAT.OverlapAxes | lib/matter.js:1432-1450 | The loop computes `OverlapPrefix` over all axes. |
| SAT.StoppedStays | lib/matter.js:1432-1450 | Once the search has stopped at a separating axis, further axes change nothing. |
| SAT.OverlapPrefixFacts | lib/matter.js:1432-1450 | It stops exactly when some axis separates, reporting the first such overlap. Otherwise it reports the least overlap with its axis and the first index attaining it. No axes gives the initial value. |
| SAT.Nearest | lib/matter.js:1464-1476 | The index is the first among the first `n` vertices at the least distance behind the position along the normal. |
| SAT.NearestVertex | lib/matter.js:1464-1476 | The first loop of `_findSupports` finds `Nearest` over all vertices. |
| SAT.NearestLeast | lib/matter.js:1464-1476 | The nearest vertex is at least as near as every vertex of the list. |
| SAT.FindSupports | lib/matter.js:1464-1491 | Returns `Supports`: the nearest vertex of B and the nearer of its two neighbours, the previous one winning a tie. Both are vertices of B, and the first is nearest. |
| SAT.SupportPointsFacts | lib/matter.js:1414-1428 | There are one or two contact points, each a vertex of one of the parts. |
| SAT.FinishShape | lib/matter.js:1392-1430 | A collision finished from a positive overlap has collided and is well shaped. |
| SAT.NormalFaces | lib/matter.js:1398-1410 | The chosen normal, the axis or its negation, points against `posB - posA`. |
| SAT.CollidesShape | lib/matter.js:1355-1431 | A reported collision is well shaped: bodies ordered by id, positive depth, normal from B to A, tangent its `perp`, penetration `normal * depth`, one or two contact points from the parts. A reused test marks the record reused. |
| SAT.CollidesFullTest | lib/matter.js:1370-1391 | The full test collides exactly when no axis of either part separates them. Its depth is then the least overlap over all those axes, and is attained. |
| Filtering.CanCollideSymmetric | lib/matter.js:822-826 | The filter does not depend on the order of the bodies. |
| Filtering.SharedGroupDecides | lib/matter.js:822-826 | A shared non-zero group overrides categories and masks, and allows collision exactly when positive. |
| Filtering.MasksDecide | lib/matter.js:822-826 | Without a shared non-zero group, collision is allowed exactly when each mask shares a bit with the other's category. |
| Filtering.DefaultFilters | lib/matter.js:822-826 | Default filters collide. A body with category 0 and no group collides with nothing. |
| Groups.Counters.NextGroup | lib/matter.js:146-150 | Returns the next negative or the next positive group, advancing only that counter. |
| Groups.Counters.NextCategory | lib/matter.js:151-154 | Returns the category word after one more left shift, and counts the call. |
| Groups.NthCategoryIsBit | lib/matter.js:151-154 | After `n < 32` calls the category is the single bit `n`. |
| Groups.BitsDisjoint | lib/matter.js:151-154 | Two different bits of the 32-bit word are non-zero and share nothing. |
| Groups.CategoriesRunOut | lib/matter.js:151-154 | From the 32nd call on, the bit is shifted out and the category is 0. |
| Groups.CategoriesDisjoint | lib/matter.js:151-154 | Categories from different calls among the first 32 are non-zero and disjoint. |
| Groups.OwnCategoryFilters | lib/matter.js:151-154 | Ungrouped bodies that accept only their own handed-out category collide exactly when it is the same category. |
| Groups.SharedGroups | lib/matter.js:146-150 | Bodies in one non-colliding group never collide, and bodies in one colliding group always do. |
| Detector.PartCollisions | lib/matter.js:802-818 | The innermost loop reports `RowFound` for part `j` against the other body's parts. |
| Detector.BodyCollisions | lib/matter.js:801-819 | The two inner loops report `BodyFound` for one broadphase pair. |
| Detector.Detect | lib/matter.js:791-821 | The loops report `Found` over all broadphase pairs, for any narrow-phase test. |
| Detector.Collisions | lib/matter.js:791-821 | `Detector.collisions` with `SAT.collides` reports `Found` over all broadphase pairs. |
| Detector.HitMembers | lib/matter.js:805-817 | A candidate's hit is its collision exactly when the candidate reports it. |
| Detector.RowMembers | lib/matter.js:802-818 | A row reports exactly the collided tests of its candidates. |
| Detector.BodySound | lib/matter.js:801-819 | Everything a body pair reports comes from one of its candidates. |
| Detector.BodyComplete | lib/matter.js:801-819 | Every collided test of a body pair's candidates is reported. |
| Detector.BodyMembers | lib/matter.js:801-819 | A body pair reports exactly the collided tests of its candidates. |
| Detector.FoundMembers | lib/matter.js:791-821 | A collision is reported exactly when it is the collided test of a candidate. A candidate is a part pair, from a broadphase pair that passes the three skip rules, whose parts meet. |
| Detector.FoundShape | lib/matter.js:791-821 | With `SAT.collides`, every reported collision has collided and is well shaped for its candidate's parts. |
| Detector.GateSymmetric | lib/matter.js:794-800 | The skip rules do not depend on the order of the bodies. |
| Detector.SkippedPairs | lib/matter.js:794-800 | A pair of two resting bodies, or one their filters exclude, contributes no candidate. |
| Grid.Added | lib/matter.js:915-928 | The pair table stays valid (keys listed once and equal to the entries) after the counting loop of `_bucketAddBody`. |
| Grid.BumpValid | lib/matter.js:918-925 | One counting step keeps the table valid. |
| Grid.AddedCount | lib/matter.js:915-928 | Adding a body raises each pair's count by the number of occupants forming that pair with it, skipping itself and static-static pairs. A key is present exactly when it was before or some occupant forms it. |
| Grid.AddedKeepsOrder | lib/matter.js:915-928 | Adding keeps the existing keys in order, each with its two bodies. |
| Grid.DroppedCount | lib/matter.js:929-936 | Removing lowers each present pair's count by the number of remaining occupants forming it; absent pairs stay absent. |
| Grid.WithoutRemoves | lib/matter.js:929-930 | The splice takes out the first occupant with the body's id. When there is none, the index -1 removes the last occupant. |
| Grid.Kept | lib/matter.js:937-949 | The kept keys all have a positive count. |
| Grid.Gone | lib/matter.js:937-949 | The deleted keys are exactly the visited keys with a non-positive count. |
| Grid.ListedExactly | lib/matter.js:937-949 | The rebuilt list holds the entries of the kept keys, in order, each with a positive count. |
| Grid.KeptExactly | lib/matter.js:937-949 | The kept keys are, once each and in order, the visited keys with a positive count. |
| Grid.PurgedAll | lib/matter.js:937-949 | Afterwards the table is valid and holds exactly the pairs with a positive count. |
| Grid.PurgedStep | lib/matter.js:939-946 | The key met at each step is still in the table and is met only once. |
| Grid.AddPairs | lib/matter.js:915-928 | The loop of `_bucketAddBody` computes `Added`. |
| Grid.DropPairs | lib/matter.js:929-936 | The loop of `_bucketRemoveBody` computes `Dropped`. |
| Grid.ActivePairs | lib/matter.js:937-949 | The loop of `_createActivePairsList` leaves `Purged` and lists `Listed`. |
| Grid.RegionCovers | lib/matter.js:895-898 | A body's region covers its bounds across: the start column's bucket holds `min.x` and the end column's holds `max.x`. |
| Grid.UnionCovers | lib/matter.js:891-894 | The union covers both regions, so the walk meets every bucket the body leaves or joins. |
| Grid.RegionKeyInjective | lib/matter.js:899-907 | Comparing region ids is comparing regions. |
| Grid.AddBody | lib/matter.js:915-928 | `_bucketAddBody` on a bucket keeps the pair table valid. |
| Grid.RemoveBody | lib/matter.js:929-936 | `_bucketRemoveBody` on a bucket keeps the pair table valid. |
| Grid.Cell | lib/matter.js:862-876 | One visited bucket keeps the pair table valid. |
| Grid.AlongColumn | lib/matter.js:861-877 | One column of the region keeps the pair table valid. |
| Grid.AcrossRegion | lib/matter.js:860-878 | The whole region walk keeps the pair table valid. |
| Grid.Place | lib/matter.js:850-881 | One iteration over the bodies keeps the pair table valid. |
| Grid.Placed | lib/matter.js:849-882 | The loop over the bodies keeps the pair table valid. |
| Grid.Grid.constructor | lib/matter.js:835-846 | A new grid is empty, with the given bucket size. |
| Grid.Grid.Clear | lib/matter.js:886-890 | No buckets, no pairs and an empty list; the stored regions stay. |
| Grid.Grid.BucketAddBody | lib/matter.js:915-928 | The grid becomes `AddBody` of its old state, and stays valid. |
| Grid.Grid.BucketRemoveBody | lib/matter.js:929-936 | The grid becomes `RemoveBody` of its old state, and stays valid. |
| Grid.Grid.CreateActivePairsList | lib/matter.js:937-949 | The table becomes `Purged`, and the list returned is `Listed` of the old table. |
| Grid.Grid.UpdateCell | lib/matter.js:862-876 | The grid becomes `Cell` of its old state. |
| Grid.Grid.UpdateColumn | lib/matter.js:861-877 | The grid becomes `AlongColumn` of its old state over all rows. |
| Grid.Grid.UpdateRegion | lib/matter.js:860-878 | The grid becomes `AcrossRegion` of its old state over all columns. |
| Grid.Grid.PlaceBody | lib/matter.js:850-881 | The grid becomes `Place` of its old state, and `changed` tells whether the body was re-placed. |
| Grid.Grid.Update | lib/matter.js:847-885 | The grid becomes `Placed` over all bodies. When any body was re-placed, the table is purged and the pair list rebuilt; otherwise the list is kept. |
| Pairs.CreateContact | lib/matter.js:772-779 | A new contact has the vertex's key and the vertex, and zero impulses. |
| Pairs.RecordContacts | lib/matter.js:986-995 | The loop over the supports leaves `ContactsAfter` and lists one key per support, in order. |
| Pairs.ContactsAfterNext | lib/matter.js:988-994 | One more support gets a fresh contact unless its key has one. |
| Pairs.ContactsAfterFacts | lib/matter.js:986-995 | Every support has a contact, and old contacts are kept unchanged. Every new contact is the fresh contact of a support with that key. |
| Pairs.ContactsAfterCovers | lib/matter.js:986-995 | Every visited support has a contact. |
| Pairs.ContactsAfterKeeps | lib/matter.js:986-995 | Contacts already present are kept unchanged. |
| Pairs.ContactsAfterNew | lib/matter.js:986-995 | A contact not present before is the fresh contact of one of the supports. |
| Pairs.UpdatePair | lib/matter.js:978-1002 | `Pair.update` produces `UpdatedPair`. |
| Pairs.UpdatedPairFacts | lib/matter.js:978-1011 | The combined friction is the smaller of the parents', and every other coefficient the larger. On a collision: one active contact per support, in order, old contacts kept, new ones at zero impulse. Otherwise inactive, with no active contact. |
| Pairs.CreatePair | lib/matter.js:956-977 | A new pair has the collision's id, bodies, sensor flag and creation time, and is active on a collision. |
| Pairs.CreatedPairContacts | lib/matter.js:956-977 | A created pair's contacts are exactly its active contacts, all at zero impulse. |
| Pairs.Pairs.constructor | lib/matter.js:1027-1035 | Everything empty. |
| Pairs.Pairs.Update | lib/matter.js:1036-1069 | Table, list and the three event lists become `UpdateFrame` of the old table and list. |
| Pairs.Pairs.RemoveOld | lib/matter.js:1070-1089 | The list becomes the kept ids in order, and the table holds exactly them. Each kept pair is touched, and the event lists are unchanged. |
| Pairs.Pairs.Clear | lib/matter.js:1090-1097 | Table, list and the event lists are emptied. |
| Pairs.MarkIdle | lib/matter.js:1072-1082 | The first loop of `removeOld` touches the sleeping pairs (`TouchedUpTo`) and marks the idle positions (`IdleMarks`). |
| Pairs.TouchedUpToFacts | lib/matter.js:1072-1082 | Every visited pair is touched, no other pair changes, and the keys stay. |
| Pairs.TouchedKeys | lib/matter.js:1072-1082 | Touching keeps the keys of the table. |
| Pairs.TouchedAt | lib/matter.js:1072-1082 | The pair at a position is touched once the loop has passed it, and untouched before. |
| Pairs.IdleMarksFacts | lib/matter.js:1072-1082 | The marks ascend and are exactly the positions of pairs not kept. |
| Pairs.RemoveIndexes | lib/matter.js:1083-1088 | Splicing at `index - i` removes exactly the marked positions, leaving their survivors in order. It deletes exactly their ids from the table and keeps the other entries. |
| Pairs.SpliceStart | lib/matter.js:1083-1088 | The splice invariant holds before the loop. |
| Pairs.SpliceStep | lib/matter.js:1084-1087 | One splice keeps the invariant. |
| Pairs.SpliceIndex | lib/matter.js:1084-1085 | The shifted index `indexesToRemove[i] - i` is in range. |
| Pairs.SpliceEnd | lib/matter.js:1083-1088 | The invariant at the end gives the survivors and the table. |
| Pairs.SurvivorsStep | lib/matter.js:1084-1087 | The shifted index finds the marked element, and splicing it out leaves the next prefix of survivors, followed by the rest. |
| Pairs.SurvivorsCount | lib/matter.js:1084 | Before the `i`-th mark, exactly `i` elements have been removed. |
| Pairs.MarkedReady | lib/matter.js:1070-1089 | The first loop hands the second distinct ids, all in the table, and ascending marks in range. |
| Pairs.RemovedAll | lib/matter.js:1070-1089 | After both loops the table and list are consistent. The list is the kept ids, and each entry is the touched old pair. |
| Pairs.RemovedConsistent | lib/matter.js:1070-1089 | Both loops together keep the table consistent, each entry touched. |
| Pairs.SurvivorsKept | lib/matter.js:1070-1089 | The survivors of the marked positions are the kept ids. |
| Pairs.RecordCollisions | lib/matter.js:1041-1061 | The first loop of `Pairs.update` computes `ClassifyUpTo` and keeps the table consistent. |
| Pairs.EndInactive | lib/matter.js:1062-1068 | The second loop deactivates the pairs that end (`ExpiredTable`) and lists them in order (`EndedPrefix`). |
| Pairs.CollidedIdsStep | lib/matter.js:1041-1046 | The seen ids grow by one collision at a time. |
| Pairs.ClassifyShape | lib/matter.js:1041-1061 | The first loop records the collided ids and ends nothing. The table stays consistent and gains exactly the seen ids. |
| Pairs.ClassifyIds | lib/matter.js:1041-1046 | The seen ids are the collided ids, and nothing ends. |
| Pairs.ClassifyKeys | lib/matter.js:1041-1061 | The table gains exactly the seen ids. |
| Pairs.ClassifyUpToConsistent | lib/matter.js:1041-1061 | The first loop keeps the table consistent. |
| Pairs.ClassifyStepShape | lib/matter.js:1042-1060 | One collided collision adds its id to the seen ids and to the table. |
| Pairs.ClassifyConsistent | lib/matter.js:1042-1060 | One collision keeps the table consistent. |
| Pairs.ClassifyTable | lib/matter.js:1041-1061 | For distinct collided pairs, each is active afterwards and every other pair is untouched. |
| Pairs.ClassifyTableAt | lib/matter.js:1041-1061 | `ClassifyTable` for one id. |
| Pairs.ClassifyStepAt | lib/matter.js:1042-1060 | One collision activates its pair and leaves every other pair as it was. |
| Pairs.ClassifyLists | lib/matter.js:1041-1061 | A collided pair starts when it was new or inactive, and continues when it was active. |
| Pairs.ClassifyStepLists | lib/matter.js:1047-1058 | One collision is pushed on `collisionStart` when new or inactive, and on `collisionActive` when active. |
| Pairs.ExpiredFacts | lib/matter.js:1062-1068 | After the first `m` pairs, those that end are deactivated, the rest untouched, and the keys stay. |
| Pairs.ExpiredKeys | lib/matter.js:1062-1068 | The second loop keeps the keys of the table. |
| Pairs.ExpiredAt | lib/matter.js:1062-1068 | The pair at a position is deactivated exactly when it has been visited and ends. |
| Pairs.EndedPrefixMembers | lib/matter.js:1062-1068 | A pair is listed as ended exactly when it has been visited and ends. |
| Pairs.ExpiredOutcome | lib/matter.js:1062-1068 | Over the whole list, exactly the pairs that end are listed and deactivated. |
| Pairs.ExpiredConsistent | lib/matter.js:1062-1068 | The second loop keeps the table consistent. |
| Pairs.UpdateConsistent | lib/matter.js:1036-1069 | `Pairs.update` keeps the table consistent. |
| Pairs.UpdateClassification | lib/matter.js:1036-1069 | For collisions of distinct pairs: started means collided and new or inactive, active means collided and active, ended means active and not collided. Afterwards a pair is active exactly when collided, and ended pairs have no active contacts. |
| Pairs.UpdateEnded | lib/matter.js:1036-1069 | The ended list and the final table of `Pairs.update`, as in `UpdateClassification`. |
| Body.Body.constructor | lib/matter.js:232-268 | A single-part body at rest, not static, awake. |
| Body.Body.UpdateStatic | lib/matter.js:234-266 | One part's state becomes `Statics` of its old state. |
| Body.Body.SetStatic | lib/matter.js:232-268 | Every part, the body first, becomes `Statics` of its old state. |
| Body.StaticRoundTrip | lib/matter.js:232-268 | Static then non-static restores the material and drops the saved copy; position, angle, sleep state and force are kept. |
| Body.StaticIsAtRest | lib/matter.js:236-257 | A static part has the static material (infinite mass, zero inverse mass) and no motion. |
| Body.StaticTwiceSavesStatic | lib/matter.js:236-245 | Making a part static twice saves the static material, so a later non-static restores that material, not the original. |
| Body.NonStaticIdempotent | lib/matter.js:257-266 | Non-static twice is non-static once, and without a saved material only the flag changes. |
| Sleeping.Updated | lib/matter.js:2674-2692 | The fold over the bodies keeps the set of known bodies. |
| Sleeping.Woken | lib/matter.js:2693-2709 | The fold over the pairs keeps the set of known bodies. |
| Sleeping.Set | lib/matter.js:2710-2733 | The body's state and the event are those of `Sleep`. |
| Sleeping.StepBody | lib/matter.js:2677-2690 | The body's state and the event are those of `Step`. |
| Sleeping.Update | lib/matter.js:2674-2692 | Every body ends in its `Updated` state, with time factor `timeScale^3`, and the notices are those of the fold. |
| Sleeping.WakePair | lib/matter.js:2695-2707 | The two parents' states and the notices are those of `Wake`. |
| Sleeping.AfterCollisions | lib/matter.js:2693-2709 | Every parent ends in its `Woken` state, with time factor `timeScale^3`, and the notices are those of the fold. |
| Sleeping.SleepEvents | lib/matter.js:2710-2733 | `set` sets the flag. It triggers `sleepStart` exactly when falling asleep and `sleepEnd` exactly when waking. |
| Sleeping.SleepIdempotent | lib/matter.js:2710-2733 | Setting the same flag again changes nothing and triggers nothing. |
| Sleeping.AsleepAtRest | lib/matter.js:2712-2724 | A sleeping body is at rest where it stands, with its counter full. |
| Sleeping.SmoothedBetween | lib/matter.js:2681-2682 | The smoothed motion lies between the old motion and this step's. |
| Sleeping.ForceWakes | lib/matter.js:2677-2680 | A body with a force on it is awake after the step, with an empty counter, and wakes with `sleepEnd` if it was asleep. |
| Sleeping.CounterInRange | lib/matter.js:2683-2690 | The counter stays between zero and the threshold. |
| Sleeping.StepSleepsOnlyAtThreshold | lib/matter.js:2683-2688 | An awake body falls asleep only when force-free and its counter reaches the threshold, triggering `sleepStart`. |
| Sleeping.StillCounts | lib/matter.js:2683-2688 | A still body's counter rises by one per step. |
| Sleeping.FallsAsleep | lib/matter.js:2683-2688 | A still body falls asleep after exactly as many steps as its counter lacks, with `sleepStart` on that step. |
| Sleeping.StaysAsleep | lib/matter.js:2677-2690 | A body asleep without force stays unchanged and triggers nothing. |
| Sleeping.MovingCountsDown | lib/matter.js:2681-2690 | A force-free body that is not quiet enough to count up gets only its smoothed motion, and its counter drops by one while positive. It triggers nothing. |
| Sleeping.UpdatedUntouched | lib/matter.js:2674-2692 | A body not yet visited is untouched. |
| Sleeping.UpdatedDistinct | lib/matter.js:2674-2692 | With no body listed twice, each body gets exactly one step. |
| Sleeping.WokenOnlyWakes | lib/matter.js:2693-2709 | `afterCollisions` only wakes: a body keeps its state, or was asleep and not static and is now awake with an empty counter. |
| Sleeping.WokenNoticesEnd | lib/matter.js:2693-2709 | Every notice `afterCollisions` adds is `sleepEnd`, after the earlier notices. |
| Common.Clamp | lib/matter.js:1857-1863 | Within the limits when they are ordered; the value itself inside the range; otherwise one of the limits. |
| Common.ClampIdempotent | lib/matter.js:1857-1863 | Clamping twice is clamping once; below gives min and above gives max. |
| Common.Sign | lib/matter.js:1864-1866 | -1 exactly for negative values and 1 otherwise, and the sign times the value is never negative. |
| Common.Position | lib/matter.js:1912-1920 | -1 exactly when absent; otherwise the first index holding the needle. |
| Common.IndexOf | lib/matter.js:1912-1920 | The search loop returns `Position`. |
| Common.JsRem | lib/matter.js:1883 | JavaScript's remainder takes the sign of the dividend and is smaller than the modulus in size. |
| Common.Seeded.constructor | lib/matter.js:1761 | The seed starts at 0. |
| Common.Seeded.Next | lib/matter.js:1882-1885 | `_seededRandom` advances the seed by `(seed * 9301 + 49297) % 233280` and returns it over 233280. |
| Common.Seeded.Random | lib/matter.js:1877-1885 | `random` returns `min` plus the fraction times `max - min`, advancing the seed. |
| Common.Seeded.RandomOr | lib/matter.js:1877-1881 | A missing `min` is 0 and a missing `max` is 1; the result is then that of `random`, advancing the seed. |
| Common.SeedInRange | lib/matter.js:1882-1885 | From a non-negative seed the next is below the modulus and the fraction is in [0, 1). |
| Common.RandomInRange | lib/matter.js:1877-1885 | A drawn value lies in [min, max) for a non-negative seed and min < max. |
| Common.FirstSeeds | lib/matter.js:1882-1885 | From 0 the generator gives 49297, then 165494. |
| Common.TopologicalSort | lib/matter.js:1931-1955 | The result lists each node once and every key, names only nodes of the graph, and closes over neighbours. Each node's neighbours come before it unless the edge closes a cycle. |
| Common.Visit | lib/matter.js:1940-1955 | `_topologicalSort` lists the node after every neighbour it reaches. Previous results are kept as a prefix, and the visited set is exactly the listed nodes. |
| Common.FinishOrdered | lib/matter.js:1953-1954 | Appending a finished node keeps the list ordered. |
| Common.AcyclicSorted | lib/matter.js:1931-1955 | In an acyclic graph every neighbour is listed before the node pointing to it. |
| Composite.CollectBodies | lib/matter.js:650-655 | The recursive loop of `allBodies` returns `AllBodies`. |
| Composite.Put | lib/matter.js:501-512 | Replacing the composite at a path puts the new one there. Below the root, the root keeps its id, its own lists and its number of children. |
| Composite.Modified | lib/matter.js:501-512 | The composite at the path gets the flag asked for. |
| Composite.FlaggedAll | lib/matter.js:507-510 | Every child is flagged. |
| Composite.FlagAll | lib/matter.js:501-512 | The recursive loop over the children computes `Flagged`. |
| Composite.SetModifiedEffect | lib/matter.js:501-512 | The composite is flagged, and so are its descendants when `updateChildren` and its parents when `updateParents`. Other parents keep their flags, and no body changes. |
| Composite.PutParents | lib/matter.js:503-506 | Every composite above the path carries the upward flag, or keeps its own without one. |
| Composite.PutBodies | lib/matter.js:513-562 | Putting a composite at a path swaps its bodies for the new one's in `allBodies`. |
| Composite.PutPut | lib/matter.js:513-562 | Putting twice at the same path keeps only the second. |
| Composite.FlaggedBodies | lib/matter.js:501-512 | Flagging changes no body. |
| Composite.FlaggedEverywhere | lib/matter.js:507-510 | Flagging reaches every composite below. |
| Composite.AddItem | lib/matter.js:513-539 | One object added keeps the path valid. |
| Composite.Added | lib/matter.js:513-539 | All objects added keep the path valid. |
| Composite.AddToBodies | lib/matter.js:513-539 | One object added brings exactly its bodies. |
| Composite.AddItemBodies | lib/matter.js:513-539 | One object added brings exactly its bodies into `allBodies` of the world. |
| Composite.AddedBodies | lib/matter.js:513-539 | `add` brings exactly the given bodies and the bodies of the given composites into `allBodies`. |
| Composite.AddedStep | lib/matter.js:515-537 | `add` adds the objects one at a time in order. |
| Composite.AddFlags | lib/matter.js:513-539 | Adding anything but a compound body's part or an unknown type flags the composite and all its parents. |
| Composite.Ids | lib/matter.js:592-631 | The ids of one list, as many as the list is long. |
| Composite.RemoveFrom | lib/matter.js:569-631 | Removing an object keeps the composite's id, and a change flags it. |
| Composite.RemoveFromFirst | lib/matter.js:569-604 | The deep removal over the children keeps their number. |
| Composite.RemoveDeep | lib/matter.js:569-631 | `removeBody`, `removeConstraint` or `removeComposite` returns `RemoveFrom`. |
| Composite.RemoveFromChildren | lib/matter.js:569-626 | The loop over the children returns `RemoveFromFirst`. |
| Composite.RemoveObject | lib/matter.js:540-562 | The switch on one object returns `RemoveFromNode`. |
| Composite.RemoveItem | lib/matter.js:540-562 | One object removed keeps the path valid. |
| Composite.Removed | lib/matter.js:540-562 | All objects removed keep the path valid. |
| Composite.RemoveBodyDeep | lib/matter.js:592-604 | Where no composite holds a body twice, deep removal takes the body out of `allBodies` and keeps every other body in order. |
| Composite.RemoveBodyShape | lib/matter.js:592-604 | The lists after a deep body removal: the first occurrence spliced out, every child processed. |
| Composite.RemoveBodyChildren | lib/matter.js:597-602 | Deep removal from the children takes the body out of their bodies. |
| Composite.RemoveShallow | lib/matter.js:569-631 | Without `deep`, a removal changes the composite exactly when the object is in its list, and then takes out one element and flags it. |
| Composite.SpliceBodies | lib/matter.js:592-596 | Splicing out the first occurrence of a body held once leaves the others in order. |
| Composite.StaticsExactly | lib/matter.js:639-643 | The filter keeps exactly the static bodies. |
| Composite.StaticsIdempotent | lib/matter.js:639-643 | Filtering twice is filtering once. |
| Composite.ClearedAt | lib/matter.js:632-649 | Clearing keeps the path valid. |
| Composite.ClearEffect | lib/matter.js:632-649 | `clear` leaves no constraints, no children and only the static bodies (or none), and flags the composite. Clearing again changes nothing. |
| Composite.World.constructor | lib/matter.js:488-500 | A new world is an empty, unmodified composite. |
| Composite.World.SetModified | lib/matter.js:501-512 | The root becomes `Modified` of the old root. |
| Composite.World.Add | lib/matter.js:513-539 | The root becomes `Added` of the old root over all objects. |
| Composite.World.Remove | lib/matter.js:540-562 | The root becomes `Removed` of the old root over all objects. |
| Composite.World.Clear | lib/matter.js:632-649 | The root becomes `ClearedAt` of the old root. |
| Composite.World.AllBodiesAt | lib/matter.js:650-655 | Returns `AllBodies` of the composite at the path. |
| Strings.Find | lib/matter.js:2177 | The first separator position, or the length; no separator before it. |
| Strings.Split | lib/matter.js:2177 | `split` always yields at least one string. |
| Strings.SplitParts | lib/matter.js:2177 | No piece of a split holds the separator. |
| Strings.JoinSplit | lib/matter.js:2193-2195 | Joining the pieces of a split gives back the string. |
| Strings.SplitJoin | lib/matter.js:2193-2195 | Splitting a join of pieces free of the separator gives back the pieces. |
| Events.Register | lib/matter.js:2178-2183 | The loop of `on` computes `Registered`. |
| Events.RegisteredGet | lib/matter.js:2176-2185 | `on` pushes the callback once per occurrence of a name, after those already there. |
| Events.RegisteredKeys | lib/matter.js:2176-2185 | `on` adds an entry for every name and keeps all others. |
| Events.Filter | lib/matter.js:2198-2202 | The inner loop of `off` keeps the other callbacks in order. |
| Events.Unregister | lib/matter.js:2196-2205 | The loop of `off` over the names computes `Cleared`. |
| Events.Keys | lib/matter.js:1794-1801 | `Common.keys` lists each name that has an entry, once. |
| Events.WithoutExactly | lib/matter.js:2198-2202 | Filtering keeps exactly the callbacks other than the one given. |
| Events.WithoutIdempotent | lib/matter.js:2198-2202 | Filtering twice is filtering once. |
| Events.WithoutRepeat | lib/matter.js:2198-2202 | Filtering a callback out drops every copy pushed at the end. |
| Events.ClearedGet | lib/matter.js:2196-2205 | After `off` a visited name keeps its other callbacks, or nothing without a callback; an unvisited name keeps its list. |
| Events.ClearedKeys | lib/matter.js:2196-2205 | `off` gives an entry to every visited name and keeps all others. |
| Events.CountIn | lib/matter.js:2178-2205 | A name is counted exactly when it is among the visited names. |
| Events.ClearedEvery | lib/matter.js:2191-2205 | `off` with a callback in place of the names visits every registered name, which removes the callback from every list. |
| Events.OnThenOff | lib/matter.js:2176-2206 | `off` with the callback and names `on` was given leaves what `off` alone would leave, so every copy `on` pushed is gone. |
| Events.CallsFor | lib/matter.js:2219-2221 | One call per registered callback. |
| Events.Invoke | lib/matter.js:2219-2221 | The inner loop of `trigger` calls each callback of a name in order. |
| Events.InvokeAll | lib/matter.js:2212-2223 | The loop of `trigger` over the names computes `Calls`. |
| Events.CallsForExactly | lib/matter.js:2219-2221 | A call is made for that name and exactly the registered callbacks. |
| Events.CallsExactly | lib/matter.js:2207-2226 | `trigger` calls a callback for a name exactly when the name was given and the callback is registered under it. |
| Events.TriggerAfterOn | lib/matter.js:2176-2226 | A callback registered last under a name is called last when that name is triggered. |
| Events.NothingLeft | lib/matter.js:2207-2226 | An empty registry, which `off` without names leaves, calls nothing for any names. |
| Events.EveryNameSplit | lib/matter.js:2177 | A registered name holds no space. |
| Events.NameOfSplit | lib/matter.js:2193-2195 | A name `off` visits holds no space. |
| Events.Emitter.constructor | lib/matter.js:2180 | An object starts without `events`. |
| Events.Emitter.On | lib/matter.js:2176-2185 | The field becomes `Registered` of the old registry (empty when absent) over the split names, and the callback is returned. |
| Events.Emitter.Off | lib/matter.js:2186-2206 | Without names the registry becomes empty. With a callback in place of the names it is purged of that callback; with names they are cleared. Without a registry those last two fail and change nothing. |
| Events.Emitter.Trigger | lib/matter.js:2207-2226 | Nothing without `events`; otherwise `Calls` over the split names. |
| Plugin.Parts | lib/matter.js:2515-2517 | One number per piece of `split(".")`, each read by `Number`. |
| Plugin.DependencyName | lib/matter.js:2493-2508 | A string dependency's name holds no `@`, and its range is non-empty. |
| Plugin.DependencyRoundTrip | lib/matter.js:2493-2508 | `name@range` parses back to that name and range. |
| Plugin.DependencyBare | lib/matter.js:2493-2508 | A bare name asks for any version, `*`. |
| Plugin.ToNumberDigits | lib/matter.js:2515-2517 | `Number` reads a numeral back as its value. |
| Plugin.ToNumberChar | lib/matter.js:2515 | `Number` of one character: a digit's value, 0 for a space, otherwise `NaN`. |
| Plugin.VersionParts | lib/matter.js:2514-2517 | `x.y.z` has no `-` and parts `[x, y, z]`. |
| Plugin.ParseVersion | lib/matter.js:2509-2528 | `x.y.z` parses as a plain version with those parts, no prerelease and the number `x*10^8 + y*10^4 + z`. |
| Plugin.ParseRange | lib/matter.js:2509-2528 | `~x.y.z` or `^x.y.z` parses as a range with that operator over `x.y.z`. |
| Plugin.AnyVersion | lib/matter.js:2529-2550 | A missing, empty or `*` range is met by every version, and the version `*` meets every range. |
| Plugin.ExactVersion | lib/matter.js:2546-2549 | An exact version is met by that version only. |
| Plugin.RangeVerdict | lib/matter.js:2529-2550 | The verdict for `a.b.c` against `~x.y.z` or `^x.y.z`, branch by branch on the operator and on `x` and `y`. |
| Plugin.TildeRange | lib/matter.js:2536-2538 | `~x.y.z` is met exactly by `x.y.c` with `c >= z`. |
| Plugin.CaretMajor | lib/matter.js:2540-2542 | With `x > 0`, `^x.y.z` is met exactly by major `x` with a number at least that of `x.y.z`. |
| Plugin.CaretMajorParts | lib/matter.js:2540-2542 | With `x > 0` and minor and patch parts below 10^4, `^x.y.z` is met exactly by major `x` not older than `x.y.z`. |
| Plugin.CaretMinor | lib/matter.js:2543-2545 | `^0.y.z` with `y > 0` is met exactly by minor `y` and patch at least `z`, whatever the major part. |
| Plugin.CaretPatch | lib/matter.js:2546 | `^0.0.z` is met exactly by patch `z`, whatever the major and minor parts. |
| Plugin.SatisfiesOwnRanges | lib/matter.js:2529-2550 | Every `x.y.z` meets itself, `~x.y.z` and `^x.y.z`. |

## Left out

- Floating point: every number is an exact real, with infinities only where `setStatic` sets them (`Ext.Infinity`). `Number.MAX_VALUE` starting values are an absent value that any real beats. Rounding, overflow and NaN from geometry are not modelled.
- Detector.Collisions: the narrow-phase test is a parameter (`Narrow`), and `Testable` requires it to accept every candidate with its remembered collision. `SAT.collides` is passed in as that test.
- Detector.Collisions: bodies are value records (`Collider`), and identity of parts is their position in the part list.
- Grid: a body is an id record; `body.region` is kept in a map from body id to region. The bucket width and height must be positive, or `_getRegion` divides by zero.
- Grid.Grid.Clear: the regions stored on the bodies are kept, as in the source, which does not reset `body.region`.
- Grid.Grid.Update: `engine.world.bounds` is the `Extent` parameter; the default world is unbounded.
- Sleeping.Update, Sleeping.AfterCollisions: `Events.trigger` of `sleepStart`/`sleepEnd` is returned as a list of notices; no callback runs. `Sleeping.set` for a body in the world is the `Set` method.
- Sleeping: `Math.max`/`Math.min` and the motion formula are over exact reals; `timeScale` is cubed as the source does.
- Body: `Body.create` and the rest of `Body` (mass, inertia, vertices, parts, position, rotation, forces) are not modelled; the constructor gives a single-part body.
- Body.Body.SetStatic: parts are distinct objects (`Valid`). A part shared twice would be made static twice.
- Body.StaticTwiceSavesStatic: this is the source's behaviour when `setStatic(body, true)` is called twice; it is modelled as written.
- Common.TopologicalSort: requires the graph's keys to be listed once and to be the keys of its neighbour map (`WellFormed`), as a JavaScript object is.
- Common.TopologicalSort: the `for ... in` order is taken from `nodes`; JavaScript lists integer-like keys first, in ascending order, and the model does not reorder them.
- Common.TopologicalSort: `visited` and `temp` are JavaScript arrays indexed by name, so a node named like an inherited array member (`push`, `map`) reads as already visited and never reaches the result. The model treats every name as a plain key.
- Common: `extend`, `clone`, `shuffle`, `now`, `colorToNumber`, logging, `nextId`, `chain` and the DOM helpers are not part of this model.
- Composite: the world tree is a value, and a composite is addressed by its path from the root. `parent` links are path prefixes, identity is by id and aliasing is not modelled. Events that `add`/`remove` trigger, and `Common.warn` for unknown types, are left out.
- Composite.World.SetModified: requires that `updateParents` and `updateChildren` are not both set, except on a root without children. The source recurses without end otherwise.
- Composite: `get`, `move`, `rebase`, `translate`, `rotate`, `scale`, `bounds`, `allConstraints` and `allComposites` are not modelled. They are geometry or lookups outside the tree bookkeeping proved here.
- Composite.RemoveFrom: its contract states only that the id is kept and that a change flags the composite; the content of a removal is stated by `RemoveBodyDeep`, `RemoveBodyShape` and `RemoveShallow`.
- Events: callbacks are identities (`nat`); what a callback does, the event object's clone and its `source` field are not modelled.
- Events.Keys: `Object.keys` order is left unspecified beyond listing each name once.
- Events: names inherited from `Object.prototype` (a name such as `"constructor"` reading an inherited property) are not modelled.
- Plugin: the regular expression checks only call `Common.warn`, so they are left out. `ToNumber` covers blank strings and decimal digit runs, and gives `NaN` for everything else; the signs, hex, exponents and decimals `Number` also reads are not modelled.
- Plugin: version numbers are unbounded integers, so `number` does not round at 2^53.
- Plugin.RangeVerdict: `^0.y.z` ignores the major part of the version, and `^0.0.z` ignores the major and minor parts; this is the source's behaviour, modelled as written.
- Plugin: `Plugin.use`, `register`, `resolve`, `dependencies` and `isPlugin` are not modelled.
- Vector: `rotate`, `rotateAbout`, `normalise`, `magnitude` and `angle` need square roots or trigonometry and are not modelled; nor are `Vertices.rotate`, `scale`, `chamfer`, `centre`, `inertia` and `clockwiseSort`.
- Vertices.SortLex: `Array.prototype.sort` is taken to be stable, and the comparator's x-then-y order is implemented as an insertion sort.
- Runner, Render, Engine, Resolver, Constraint, Query, Svg and the mouse are not part of this model.
