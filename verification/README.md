# A verified model of the ambien ray tracer core

This project models the core of the ambien ray tracer (C++):

- **Geometry:** the vector algebra and rays.
- **Range arithmetic:** intervals with infinite bounds, and axis-aligned bounding boxes with the slab test.
- **Hit routines:** spheres and parallelograms (quads), and the record they fill in.
- **The scene list:** the running bounding box and the closest-hit scan.
- **Materials:** the Lambertian and metal scatter rules.
- **Textures:** solid colours, 3-D checkers and image lookup.
- **The image reader:** its index arithmetic.
- **Pixel output:** `write_color`, which turns accumulated colour into bytes.

Modelling choices:

- `double` is modelled as `real`, which is exact.
- The infinities of `interval` are explicit bounds (`Ext = NegInf | Fin(v) | PosInf`).
- `sqrt` and the spherical `(u, v)` mapping are functions the caller supplies (`Numerics`). `Numerics.Valid()` says `sqrt` returns the non-negative square root.
- Randomness enters as parameters: the draws of a rejection loop, or the random unit vector a material uses.

Where the source writes through an out-parameter or mutates in place, the model does the same:

- `hit_record` and `hittable_list` are classes.
- `vec3`'s compound assignments act on a three-element array.
- `write_color` writes into an `array<byte>`.

Each such method is proved against a function that specifies its result. For example, `HitSphere` ensures `rec.Holds(SphereHit(...).value)` on a hit and `unchanged(rec)` on a miss. The properties are then proved about those functions.

Modules, one per source file:

| module | source |
|---|---|
| `Vectors` | `vec3.h` |
| `Rays` | `ray.h` |
| `Intervals` | `interval.h` |
| `Aabbs` | `aabb.h` |
| `Hits` | `hittable.h` |
| `Materials` | `material.h` |
| `Spheres` | `sphere.h` |
| `Quads` | `quad.h`, except `box()` |
| `Boxes` | `box()` in `quad.h` |
| `Scene` | `hittable_list.h` |
| `Images` | `img_reader.h` |
| `Textures` | `texture.h` |
| `Colors` | `color.h` |

`Options` holds the usual optional value.

Some behaviour is reproduced as written rather than corrected:

- The ray constructor takes the direction first.
- The image texture falls back to cyan.
- Image `v = 0` reads the last image row.
- The quad's box spans only `Q` to `Q + u + v`.
- The "bottom" face of `box()` lies outside the box.
- Metal's `fuzz` is not clamped.

## Model

| member | source | states |
|---|---|---|
| `Vectors.Vec3.NearZero` | src/vec3.h:44-47 | definition of `near_zero`; its three-component meaning is stated in `NearZeroIff` |
| `Vectors.Len` | src/vec3.h:40-42 | definition of `len()` over the supplied `sqrt`; unit length of `UnitVector` is stated there |
| `Vectors.Div` | src/vec3.h:78-80 | definition of `u / t` as `(1/t) * u`; properties in `MutableVec3.DivAssign` and `UnitVector` |
| `Vectors.Dot` | src/vec3.h:82-84 | definition of `dot`; properties in `DotSymmetric`, `DotScale`, `DotSelfNonNegative`, `DotSelfPositive`, `CauchySchwarz` |
| `Vectors.Cross` | src/vec3.h:86-90 | definition of `cross`; properties in `CrossOrthogonal`, `CrossAnticommutative` |
| `Vectors.Reflect` | src/vec3.h:129-131 | definition of `reflect`; properties in `ReflectAboutUnitNormal` |
| `Vectors.UnitVector` | src/vec3.h:92-94 | for a non-zero `u` the result has unit length and is a positive multiple of `u` |
| `Vectors.RandomOnHemisphere` | src/vec3.h:124-127 | the result is the drawn vector or its negation, whichever lies on the normal's side (`dot >= 0`) |
| `Vectors.RandomInUnitSphere` | src/vec3.h:112-118 | returns the first candidate with `dot(r, r) < 1`, after rejecting every earlier one; returns None exactly when no draw is accepted |
| `Vectors.RandomInUnitDisk` | src/vec3.h:104-110 | as above, and the accepted vector has `z == 0` |
| `Vectors.NearZeroIff` | src/vec3.h:44-47 | `near_zero` holds iff every component has magnitude below `1e-8` |
| `Vectors.DotSymmetric` | src/vec3.h:82-84 | `dot` is symmetric |
| `Vectors.DotScale` | src/vec3.h:70-84 | `dot(k u, v) == k dot(u, v)` |
| `Vectors.DotSelfNonNegative` | src/vec3.h:82-84 | `dot(u, u) >= 0` |
| `Vectors.DotSelfPositive` | src/vec3.h:82-84 | `dot(u, u) > 0` for a non-zero `u` |
| `Vectors.CrossOrthogonal` | src/vec3.h:82-90 | `cross(u, v)` is orthogonal to both `u` and `v` |
| `Vectors.CrossAnticommutative` | src/vec3.h:86-90 | `cross(u, v) == -cross(v, u)` |
| `Vectors.CauchySchwarz` | src/vec3.h:82-90 | `dot(u, v)^2 <= dot(u, u) dot(v, v)`, used to show Lambertian scatter stays in the hemisphere |
| `Vectors.ReflectAboutUnitNormal` | src/vec3.h:129-131 | for a unit `n`, reflection negates the normal component, and reflecting twice gives back `v` |
| `Vectors.MutableVec3.constructor` | src/vec3.h:11-12 | the new vector holds the given components |
| `Vectors.MutableVec3.AddAssign` | src/vec3.h:22-27 | `+=` replaces the value by the componentwise sum |
| `Vectors.MutableVec3.MulAssign` | src/vec3.h:29-34 | `*=` replaces the value by its multiple |
| `Vectors.MutableVec3.DivAssign` | src/vec3.h:36-38 | `/= t` gives `u / t`, which equals `*= 1/t` |
| `Rays.Ray.At` | src/ray.h:15-17 | `at(t) - origin == t * direction` |
| `Rays.ConstructorOrder` | src/ray.h:10-13 | the first constructor argument is `direction()` and the second `origin()` |
| `Rays.AtZeroIsOrigin` | src/ray.h:15-17 | `at(0)` is the origin |
| `Rays.AtOneIsOriginPlusDirection` | src/ray.h:15-17 | `at(1)` is origin plus direction |
| `Rays.AtDifference` | src/ray.h:15-17 | `at(s) - at(t) == (s - t) * direction` |
| `Intervals.Interval.Contains` | src/interval.h:14-16 | definition of `contains`, both bounds inclusive; properties in `EmptyContainsNothing`, `SurroundsImpliesContains`, `ClampIntoInterval` |
| `Intervals.Interval.Surrounds` | src/interval.h:18-20 | definition of `surrounds`, both bounds exclusive; properties in `UniverseSurroundsEverything`, `SurroundsImpliesContains` |
| `Intervals.Interval.Size` | src/interval.h:28-30 | definition of `size()` on extended reals; properties in `ExpandSizeAndMidpoint`, `ShiftProperties` |
| `Intervals.Interval.Expand` | src/interval.h:32-35 | definition of `expand`; properties in `ExpandSizeAndMidpoint` |
| `Intervals.Empty` | src/interval.h:40 | definition of `empty` `[+inf, -inf]`; properties in `EmptyContainsNothing`, `HullWithEmpty` |
| `Intervals.Universe` | src/interval.h:41 | definition of `universe` `[-inf, +inf]`; properties in `UniverseSurroundsEverything` |
| `Intervals.Shift` | src/interval.h:43-45 | definition of `ival + displacement`; properties in `ShiftProperties`, `ShiftLeft` |
| `Intervals.Interval.Clamp` | src/interval.h:22-26 | for `min <= max` the result lies in the interval, and a contained value is returned unchanged |
| `Intervals.Hull` | src/interval.h:11-12 | the union interval contains every point either argument contains |
| `Intervals.ShiftLeft` | src/interval.h:47-49 | `d + ival` equals `ival + d` |
| `Intervals.EmptyContainsNothing` | src/interval.h:9-16 | the default/empty interval neither contains nor surrounds any value |
| `Intervals.UniverseSurroundsEverything` | src/interval.h:41 | the universe surrounds and contains every value |
| `Intervals.SurroundsImpliesContains` | src/interval.h:14-20 | `surrounds(x)` implies `contains(x)` |
| `Intervals.ClampIntoInterval` | src/interval.h:22-26 | on a finite, ordered interval, `clamp` lands inside it and is idempotent |
| `Intervals.ClampOutside` | src/interval.h:22-26 | below the minimum `clamp` gives the minimum, above the maximum the maximum |
| `Intervals.HullWithEmpty` | src/interval.h:9-12 | union with the empty interval, on either side, returns the other interval |
| `Intervals.HullCommutative` | src/interval.h:11-12 | union does not depend on argument order |
| `Intervals.HullLeast` | src/interval.h:11-12 | any interval around both arguments is around their union |
| `Intervals.ExpandSizeAndMidpoint` | src/interval.h:28-35 | `expand(delta)` adds exactly `delta` to `size()` and keeps the midpoint |
| `Intervals.ShiftProperties` | src/interval.h:43-45 | shifting by `d` keeps `size()`, and `contains(x)` iff the shifted interval contains `x + d` |
| `Aabbs.Default` | src/aabb.h:12 | definition of the default box (three empty intervals); properties in `UnionWithDefault`, `PadDefault`, `DefaultNeverHit` |
| `Aabbs.PadAxis` | src/aabb.h:33-36 | definition of one axis of `pad()`; properties in `PadAxisProperties` |
| `Aabbs.Pad` | src/aabb.h:32-39 | definition of `pad()`; properties in `PadProperties`, `PadDefault`, `OrderedPreserved` |
| `Aabbs.Translate` | src/aabb.h:84-86 | definition of `bbox + offset`; properties in `TranslateProperties`, `TranslateLeft` |
| `Aabbs.SlabsOverlap` | src/aabb.h:63-81 | the slab criterion `Hit` is proved equal to; its geometric meaning is stated in `SlabsOverlapMeaning` |
| `Aabbs.Quotient` | src/aabb.h:44-47 | definition of `(bound - orig) / dir` on extended reals; properties in `QuotientIsCrossing` |
| `Aabbs.ReferenceFrom` | src/aabb.h:43-54 | definition of the commented-out reference loop from axis `i`; properties in `ReferenceFromAgrees` |
| `Aabbs.ReferenceHit` | src/aabb.h:42-55 | definition of the commented-out reference `hit`; properties in `ReferenceAgreesOnOrderedBoxes`, `ReferenceDiffersOnDefaultBox` |
| `Aabbs.Aabb.Axis` | src/aabb.h:26-30 | `axis(1)` is y, `axis(2)` is z, and every other index gives x |
| `Aabbs.FromPoints` | src/aabb.h:15-19 | the two-point box contains both points and has `min <= max` on every axis |
| `Aabbs.FromPointsSymmetric` | src/aabb.h:15-19 | the two-point box does not depend on argument order |
| `Aabbs.FromPointsSmallest` | src/aabb.h:15-19 | every box containing both points contains the two-point box |
| `Aabbs.ContainsPointByAxis` | src/aabb.h:26-30 | a box contains (surrounds) a point iff every `axis(i)` contains (surrounds) its component |
| `Aabbs.Union` | src/aabb.h:20-24 | the union box contains every point either box contains |
| `Aabbs.UnionWithDefault` | src/aabb.h:20-24 | union with the default (empty) box, on either side, returns the other box |
| `Aabbs.PadAxisProperties` | src/aabb.h:32-36 | padding one axis keeps its points, leaves an axis at least 0.001 thick unchanged, and makes a finite ordered axis at least 0.001 thick |
| `Aabbs.PadProperties` | src/aabb.h:32-39 | `pad()` keeps every point of the box, leaves thick axes unchanged, and makes every finite ordered axis at least 0.001 thick |
| `Aabbs.PadDefault` | src/aabb.h:32-39 | padding the default box changes nothing, since its empty axes have infinite bounds |
| `Aabbs.TranslateLeft` | src/aabb.h:88-90 | `offset + box` equals `box + offset` |
| `Aabbs.TranslateProperties` | src/aabb.h:84-86 | translation shifts each axis by the matching offset component, keeps axis sizes, and moves contained points along |
| `Aabbs.Hit` | src/aabb.h:63-81 | the slab loop returns true iff the largest of `ray_t.min` and the three ordered slab entries lies strictly below the smallest of `ray_t.max` and the three exits |
| `Aabbs.EntryFromGrows` | src/aabb.h:74 | the running `ray_t.min` never decreases |
| `Aabbs.ExitFromShrinks` | src/aabb.h:75 | the running `ray_t.max` never increases |
| `Aabbs.CrossingVersusPoint` | src/aabb.h:65-72 | a slab crossing time lies below (above) `t` iff the ray point at `t` lies beyond the bound, with the comparison flipped for a negative direction |
| `Aabbs.SlabAxis` | src/aabb.h:65-75 | `t` lies strictly between one axis's ordered entry and exit iff the ray point at `t` is strictly inside that axis |
| `Aabbs.EntryFromBelow` | src/aabb.h:74 | the final entry lies below `t` iff `ray_t.min` and every later slab entry do |
| `Aabbs.ExitFromAbove` | src/aabb.h:75 | the final exit lies above `t` iff `ray_t.max` and every later slab exit do |
| `Aabbs.SlabsOverlapMeaning` | src/aabb.h:63-81 | `hit` succeeds iff some `t` strictly inside `ray_t` puts the ray point strictly inside the box |
| `Aabbs.NarrowingKeepsMisses` | src/aabb.h:63-81 | narrowing `ray_t` never turns a miss into a hit |
| `Aabbs.DefaultNeverHit` | src/aabb.h:63-81 | the default box is never hit |
| `Aabbs.InverseFacts` | src/aabb.h:65-71 | `inv_d * d == 1`, and `inv_d < 0` iff `d < 0` |
| `Aabbs.ReferenceSlab` | src/aabb.h:44-47 | on an axis with `min <= max`, the reference version's `fmin` and `fmax` of the two quotients are the optimised version's ordered entry and exit |
| `Aabbs.QuotientIsCrossing` | src/aabb.h:44-47 | the reference quotient `(bound - orig) / d` equals the optimised `(bound - orig) * inv_d` |
| `Aabbs.ReferenceFromAgrees` | src/aabb.h:42-55 | on boxes with `min <= max`, the reference loop's verdict from axis `i` on equals comparing the optimised running entry and exit |
| `Aabbs.ReferenceAgreesOnOrderedBoxes` | src/aabb.h:42-81 | the reference and optimised versions agree on every box whose axes have `min <= max` |
| `Aabbs.ReferenceDiffersOnDefaultBox` | src/aabb.h:42-81 | on the default (empty) box with the universe range they disagree: the reference version reports a hit, the optimised version a miss |
| `Aabbs.OrderedPreserved` | src/aabb.h:15-39 | two-point boxes have ordered axes, and union and `pad` keep them ordered |
| `Hits.HitRecord.Holds` | src/hittable.h:8-21 | the record holds exactly the values of a hit; used by `HitSphere`, `HitQuad`, `HitMembers` and `HitRecord.CopyFrom` |
| `Hits.FaceNormal` | src/hittable.h:15-18 | `front_face` iff `dot(outward, dir) < 0`; the stored normal is the outward normal or its negation, the outward one when front-facing, and always has `dot(N, dir) <= 0` |
| `Hits.FaceNormalOrientation` | src/hittable.h:16-17 | the stored normal equals the outward normal iff the ray arrives from outside (or the normal is zero) |
| `Hits.HitRecord.constructor` | src/hittable_list.h:24 | a fresh record holds no material |
| `Hits.HitRecord.SetNormalFace` | src/hittable.h:15-18 | writes `front_face` and `N` as `FaceNormal` says, and leaves `p`, `t`, `mat`, `u` and `v` unchanged |
| `Hits.HitRecord.CopyFrom` | src/hittable_list.h:33 | `rec = temp_rec` copies every field |
| `Materials.LambertianDirection` | src/material.h:22-26 | the direction is `N` exactly when `N + rv` is near zero, else `N + rv`; it is near zero only if `N` is |
| `Materials.MetalDirection` | src/material.h:40-41 | definition of the metal direction, reflected plus fuzz; properties in `ScatterMetal`, `MetalMirror` |
| `Materials.ScatterLambertian` | src/material.h:21-30 | always succeeds; attenuation is `albedo`; the scattered ray starts at `rec.p` in the Lambertian direction |
| `Materials.ScatterMetal` | src/material.h:39-44 | attenuation is `albedo` even when absorbed; the ray starts at `rec.p` along the reflected, fuzzed direction; succeeds iff `dot(direction, N) > 0` |
| `Materials.Scatter` | src/material.h:14 | dispatches on the material with the two rules above |
| `Materials.LambertianIntoHemisphere` | src/material.h:22-26 | with unit `N` and a unit random vector, the Lambertian direction never points below the surface |
| `Materials.MetalMirror` | src/material.h:40-43 | with `fuzz == 0` the direction is exactly `reflect(unit_vector(dir), N)`, and the ray scatters iff it came in against `N` |
| `Spheres.Coefficients` | src/sphere.h:16-18 | definition of `a`, `half_b` and `c`; properties in `QuadraticAtRayPoint`, `PositiveDiscriminant` |
| `Spheres.Roots` | src/sphere.h:26-29 | definition of the two candidate roots; properties in `RootsAreTheIntersections` |
| `Spheres.SphereHit` | src/sphere.h:15-44 | definition of `sphere::hit` as a value; properties in `SphereHitSelection`, `SphereHitNearest`, `SphereHitOnSurface`, `SphereHitNormal`, `HitSphere` |
| `Spheres.MakeSphere` | src/sphere.h:9-13 | axis `i` of the box is `[center_i - abs(radius), center_i + abs(radius)]` |
| `Spheres.HitSphere` | src/sphere.h:15-44 | returns true iff `SphereHit` finds a hit, then the record holds it; on false the record is unchanged |
| `Spheres.PositiveDiscriminant` | src/sphere.h:16-22 | a positive discriminant means a non-zero direction and radius |
| `Spheres.QuadraticAtRayPoint` | src/sphere.h:16-20 | the quadratic in `t` is the squared distance of `at(t)` from the centre minus `radius^2` |
| `Spheres.RootsAreTheIntersections` | src/sphere.h:26-29 | the two roots are ordered, and `at(t)` is on the sphere iff `t` is one of them |
| `Spheres.NonPositiveDiscriminantMisses` | src/sphere.h:20-24 | a discriminant `<= 0` yields no hit |
| `Spheres.SphereHitSelection` | src/sphere.h:26-37 | a hit has `t_min < t < t_max`, `p == at(t)` and the sphere's material; the smaller root is taken when it lies strictly in range, else the larger; a hit exists iff one root lies strictly in range |
| `Spheres.SphereHitNarrowing` | src/sphere.h:27-33 | lowering `t_max` to anything above the hit keeps the same hit |
| `Spheres.SphereHitWidening` | src/sphere.h:27-33 | raising `t_max` keeps a hit found in the smaller range |
| `Spheres.SphereHitNearest` | src/sphere.h:26-33 | the hit point is on the sphere and no intersection in range is nearer; an intersection in range means a hit |
| `Spheres.SphereHitOnSurface` | src/sphere.h:35-36 | the hit point lies on the sphere |
| `Spheres.SphereHitFace` | src/sphere.h:39-40 | the record's face and normal are `set_normal_face` of `(p - center) / radius` |
| `Spheres.SphereHitNormal` | src/sphere.h:39-40 | the stored normal is unit length, faces against the ray, and is `±(p - center) / radius` |
| `Spheres.UnitOutward` | src/sphere.h:39 | `(p - center) / radius` has unit length for a point on the sphere |
| `Spheres.NormalOfSurfacePoint` | src/sphere.h:39-40 | the oriented normal at a surface point has unit length |
| `Spheres.FaceNormalOfUnit` | src/hittable.h:15-18 | orienting a unit normal keeps it unit length |
| `Quads.Planar` | src/quad.h:33-35 | definition of `alpha` and `beta`; properties in `PlanarOfPlanePoint`, `PlanePointOfPlanar`, `PlanarIsScaledCoordinates` |
| `Quads.Interior` | src/quad.h:55 | definition of the `is_interior` test; properties in `IsInterior`, `QuadHitMeaning` |
| `Quads.Parallel` | src/quad.h:23-26 | definition of the `fabs(denom) < 1e-8` rejection; properties in `QuadHitMeaning`, `PlaneParameter` |
| `Quads.QuadHit` | src/quad.h:22-46 | definition of `quad::hit` as a value; properties in `QuadHitProperties`, `QuadHitMeaning`, `HitQuad` |
| `Quads.MakeQuad` | src/quad.h:12-20 | the normal is the unit, positive multiple of `u x v`; `Q` is on the plane `dot(normal, p) == D`; `dot(w, u x v) == 1`; the box is `set_bounding_box`'s |
| `Quads.IsInterior` | src/quad.h:54-61 | accepts iff `0 <= a, b <= 1`, writes `u`, `v` only on acceptance, and leaves every other field unchanged |
| `Quads.HitQuad` | src/quad.h:22-46 | returns true iff `QuadHit` finds a hit, then the record holds it; on false the record is unchanged |
| `Quads.QuadHitProperties` | src/quad.h:22-43 | a hit is not parallel; `t_min <= t <= t_max` (inclusive); `p == at(t)` on the plane; `(u, v)` are the interior planar coordinates; the quad's material and `set_normal_face` of the normal |
| `Quads.QuadHitRangeChange` | src/quad.h:28-30 | any `t_max` at or above the hit keeps the same hit |
| `Quads.QuadHitMeaning` | src/quad.h:22-38 | a hit exists iff the ray is not parallel and meets the plane point `Q + a u + b v` with `0 <= a, b <= 1` at some `t` in range; the hit is that meeting |
| `Quads.HitMeets` | src/quad.h:22-38 | a hit is a meeting of the ray with an interior point of the parallelogram |
| `Quads.MeetingHits` | src/quad.h:22-38 | a meeting in range with an interior point is reported as a hit |
| `Quads.MeetingIsTheHit` | src/quad.h:28-35 | a meeting happens at the `t` the source computes, and its planar coordinates are `(a, b)` |
| `Quads.PlanePointOnPlane` | src/quad.h:15-17 | every point `Q + a u + b v` satisfies `dot(normal, p) == D` |
| `Quads.PlanarOfPlanePoint` | src/quad.h:32-35 | `alpha`, `beta` of `Q + a u + b v` are `(a, b)` |
| `Quads.PlanePointOfPlanar` | src/quad.h:32-35 | a point on the plane is `Q + alpha u + beta v` for its own `alpha`, `beta` |
| `Quads.OnPlaneOrthogonal` | src/quad.h:15-17 | a point on the plane is, seen from `Q`, orthogonal to `u x v` |
| `Quads.PlanarIsScaledCoordinates` | src/quad.h:18-35 | `alpha` and `beta` are the triple-product coordinates divided by `dot(n, n)` |
| `Quads.BasisIdentity` | src/quad.h:18-35 | every vector is `(a u + b v + c n) / dot(n, n)`, with triple-product coefficients |
| `Quads.Reconstruct` | src/quad.h:18-35 | a vector orthogonal to `n` is the combination of `u` and `v` with those coefficients |
| `Quads.CrossOfCombination` | src/quad.h:34 | `(a u + b v) x v == a (u x v)` |
| `Quads.CrossWithCombination` | src/quad.h:35 | `u x (a u + b v) == b (u x v)` |
| `Quads.PlaneParameter` | src/quad.h:23-28 | with `dot(normal, dir) != 0`, `at(t)` is on the plane iff `t == (D - dot(normal, orig)) / denom` |
| `Quads.QuadBoxCorners` | src/quad.h:50-52 | the box contains `Q` and `Q + u + v`, and every axis is at least 0.001 thick |
| `Quads.QuadBoxMissesCorner` | src/quad.h:50-52 | for a whole family of quads the box misses the interior corner `Q + u` |
| `Quads.FlatAxisPadded` | src/aabb.h:32-36 | a zero-width axis is padded to `[c - 0.0005, c + 0.0005]` |
| `Boxes.FaceFrames` | src/quad.h:77-89 | the six `(Q, u, v)` triples `box()` passes, in the order added |
| `Boxes.FramesSpan` | src/quad.h:80-89 | every face of a box with distinct corner coordinates has edges spanning a plane |
| `Boxes.FaceQuad` | src/quad.h:84-89 | each face quad carries its frame and the shared material |
| `Boxes.QuadsOf` | src/quad.h:84-89 | one quad per frame, in order, all with the shared material |
| `Boxes.Faces` | src/quad.h:73-92 | exactly six quads, all sharing `mat` |
| `Boxes.ObjectsOf` | src/quad.h:84-89 | the quads, in order, as list members |
| `Boxes.FacesSymmetric` | src/quad.h:77-78 | the faces do not depend on the order of `a` and `b` |
| `Boxes.MakeBox` | src/quad.h:73-92 | a fresh list holding exactly the six faces, with the running box over them covering every face |
| `Boxes.ListOfSix` | src/quad.h:75-91 | a fresh list after six successive `add` calls holds the six objects in order and their running box |
| `Boxes.AddFace` | src/quad.h:84-89 | one `add` extends the list and running box by the next face |
| `Boxes.FromPointsBetween` | src/quad.h:77-78 | the two-point box of `a` and `b` spans `min` to `max` |
| `Boxes.FaceInBox` | src/quad.h:84-88 | every point of the first five faces lies in the box spanned by `a` and `b` |
| `Boxes.BottomFaceOutside` | src/quad.h:89 | every point of the "bottom" face off its starting edge lies outside that box |
| `Scene.ObjHit` | src/hittable.h:25 | definition of `hit` of any object; properties in `ObjRange`, `ObjStable`, `HitObject` |
| `Scene.ScanHit` | src/hittable_list.h:23-37 | definition of the closest-hit scan as a value; properties in `ScanClosest`, `ScanRange`, `ScanStable`, `HitMembers` |
| `Scene.ClosestSoFar` | src/hittable_list.h:25-32 | definition of `closest_t` after a prefix of the members; properties in `ScanStable`, `HitMembers` |
| `Scene.Accumulate` | src/hittable_list.h:16-19 | definition of the running box; properties in `AccumulateCovers`, `HittableList.Add` |
| `Scene.HitObject` | src/hittable_list.h:29-30 | one member's `hit`: true iff `ObjHit` finds a hit, then the record holds it; else the record is unchanged |
| `Scene.HitMembers` | src/hittable_list.h:24-37 | the scan loop: true iff `ScanHit` finds a hit, then the record holds it; else the record is unchanged |
| `Scene.ObjRange` | src/hittable_list.h:29-30 | every object's hit lies in `[t_min, t_max]` |
| `Scene.ScanRange` | src/hittable_list.h:23-37 | the scan's hit lies in `[t_min, t_max]` |
| `Scene.ObjStable` | src/hittable_list.h:29-30 | lowering `t_max` to anything above an object's hit keeps that hit |
| `Scene.ScanStable` | src/hittable_list.h:23-37 | lowering `t_max` to anything above the scan's hit keeps it |
| `Scene.StableAfterEarlierHit` | src/hittable_list.h:28-34 | stability of the scan when an earlier member already hit |
| `Scene.StableAfterEarlierMiss` | src/hittable_list.h:28-34 | stability of the scan when no earlier member hit |
| `Scene.LastMemberWins` | src/hittable_list.h:29-33 | a member that hits below `closest_t` hits the same way over the whole range |
| `Scene.ScanProvenance` | src/hittable_list.h:29-35 | the returned record is the hit of some member over the whole range |
| `Scene.ScanNearest` | src/hittable_list.h:25-34 | any member that hits means the scan hits, no farther than that member |
| `Scene.ScanClosest` | src/hittable_list.h:23-37 | the list hits iff some member hits; the record is one member's own hit; no member hits nearer |
| `Scene.AccumulateCovers` | src/hittable_list.h:16-19 | the running box covers the starting box and every added object's box |
| `Scene.HittableList.constructor` | src/hittable_list.h:13 | no members and the default box |
| `Scene.HittableList.Single` | src/hittable_list.h:14 | one member, and the box is the default box joined with its box |
| `Scene.HittableList.Add` | src/hittable_list.h:16-19 | appends exactly the object at the end, the box becomes the union with its box, and coverage is kept |
| `Scene.HittableList.Clear` | src/hittable_list.h:21 | empties the list and leaves the box unchanged |
| `Scene.HittableList.AsObject` | src/hittable_list.h:40 | the list as a member reports its running box as `bounding_box()` |
| `Scene.HittableList.Hit` | src/hittable_list.h:23-38 | the closest-hit scan over the members, with the record written only on a hit; the members are not modified |
| `Images.Valid` | src/img_reader.h:28-34 | what a successful load leaves: positive size and three bytes per pixel; assumed by `PixelOffsetInBounds` |
| `Images.Width` | src/img_reader.h:36 | definition of `width()`; properties in `NoDataSize` |
| `Images.Height` | src/img_reader.h:37 | definition of `height()`; properties in `NoDataSize` |
| `Images.ClampIndex` | src/img_reader.h:55-60 | definition of the private `clamp`; properties in `ClampIndexRange` |
| `Images.PixelOffset` | src/img_reader.h:44-47 | definition of the clamped pixel offset; properties in `PixelOffsetInBounds`, `PixelOffsetRowMajor` |
| `Images.PixelData` | src/img_reader.h:39-48 | three bytes; magenta `{255, 0, 255}` without data |
| `Images.ClampIndexRange` | src/img_reader.h:55-60 | with `low < high` the result lies in `[low, high)`, is `x` when `x` does, and is `low` below and `high - 1` above |
| `Images.NoDataSize` | src/img_reader.h:36-37 | without data `width()` and `height()` are 0 |
| `Images.PixelOffsetInBounds` | src/img_reader.h:44-47 | with data, the clamped offset is non-negative and its three bytes lie inside the `width * height * 3` bytes |
| `Images.PixelOffsetRowMajor` | src/img_reader.h:44-47 | for in-range `x`, `y` the offset is `(y * width + x) * 3`, and different pixels have disjoint bytes |
| `Textures.Trunc` | src/texture.h:66-67 | definition of `static_cast<int>` of a double, toward zero; properties in `ImageIndicesRange` |
| `Textures.CppRem` | src/texture.h:47 | definition of C++ `%`; properties in `CppRemParity` |
| `Textures.CheckerEven` | src/texture.h:43-47 | definition of the checker parity test; properties in `CheckerChoice`, `ShiftSwaps` |
| `Textures.ImageIndices` | src/texture.h:63-67 | definition of the column and row asked for; properties in `ImageIndicesRange` |
| `Textures.ImageValue` | src/texture.h:60-72 | definition of `image::value`; properties in `ImageFallback`, `ImageChannelsInUnit` |
| `Textures.Value` | src/texture.h:13 | definition of `value` of any texture; properties in `SolidIgnoresArguments`, `CheckerChoice`, `CheckerShift`, `ImageFallback` |
| `Textures.MakeChecker` | src/texture.h:32-37 | the stored `iscale` is the reciprocal of the scale |
| `Textures.Clamp01` | src/texture.h:63-64 | `interval(0,1).clamp` lands in `[0, 1]` and keeps values already there |
| `Textures.SolidIgnoresArguments` | src/texture.h:23-25 | a solid texture returns its colour whatever `u`, `v` and `p` are |
| `Textures.CppRemParity` | src/texture.h:47 | C++ `% 2` is zero exactly for even numbers, and is -1 for negative odd ones |
| `Textures.CheckerChoice` | src/texture.h:43-48 | the checker returns the even texture iff the sum of the floored scaled coordinates is even |
| `Textures.CheckerShift` | src/texture.h:32-47 | moving `p` by the scale along any axis swaps the even and odd textures |
| `Textures.ShiftSwaps` | src/texture.h:43-47 | a move by `1 / iscale` along one axis flips the parity test |
| `Textures.FloorSumStep` | src/texture.h:43-45 | such a move raises the floored sum by exactly one |
| `Textures.ImageFallback` | src/texture.h:61 | without an image the texture is cyan `(0, 1, 1)` |
| `Textures.ImageIndicesRange` | src/texture.h:63-67 | the column lies in `[0, width]` and the row in `[0, height]`; `v >= 1` gives row 0, and `v <= 0` gives a row the reader clamps to the last one |
| `Textures.ImageChannelsInUnit` | src/texture.h:68-71 | every returned channel lies in `[0, 1]` |
| `Colors.LinearToGamma` | src/color.h:9-11 | definition of `linear_to_gamma`; properties in `GammaSquares`, `GammaMonotone` |
| `Colors.ChannelByte` | src/color.h:19-31 | definition of one channel of `write_color`; properties in `ChannelByteMonotone`, `BlackPixel`, `WhitePixel`, `WriteColor` |
| `Colors.PixelIndex` | src/color.h:29-31 | definition of `j * image_width * channels + i * channels`; properties in `PixelIndexInImage`, `PixelsDisjoint` |
| `Colors.Quantize` | src/color.h:28-31 | `256 * intensity.clamp(c)` truncated lies in `0..255`, and is `floor(256 c)` for `c` in `[0, 0.999]` |
| `Colors.ToByte` | src/color.h:29-31 | the cast to `uint8_t` keeps the quantised value, with no wrap-around |
| `Colors.PixelBytes` | src/color.h:29-31 | three bytes per pixel |
| `Colors.WriteColor` | src/color.h:13-32 | writes the averaged, gamma-corrected, quantised r, g, b bytes at `j*w*c + i*c + 0, 1, 2` and changes no other byte |
| `Colors.AveragedChannel` | src/color.h:19-22 | proof step for `WriteColor`: scaling by the precomputed `1 / samples` is the averaging `ChannelByte` quantises |
| `Colors.QuantizeRange` | src/color.h:28-31 | values `<= 0` give 0; values `>= 0.999` give 255; in between the byte is within one of `256 c` |
| `Colors.QuantizeMonotone` | src/color.h:28-31 | a brighter channel never gives a smaller byte |
| `Colors.GammaSquares` | src/color.h:9-11 | gamma correction gives a non-negative value whose square is the input |
| `Colors.GammaMonotone` | src/color.h:9-11 | gamma correction preserves order |
| `Colors.ChannelByteMonotone` | src/color.h:19-31 | over a positive sample count a brighter summed channel gives no smaller byte |
| `Colors.BlackPixel` | src/color.h:15-31 | an all-zero colour is written as three zero bytes |
| `Colors.WhitePixel` | src/color.h:15-31 | a colour summed to `samples` in every channel is written as three 255 bytes |
| `Colors.PixelIndexInImage` | src/color.h:29-31 | with 3 channels, pixel `(i, j)` of a `w` by `h` image starts at `(j w + i) * 3`, and its three bytes lie within `w * h * 3` |
| `Colors.PixelsDisjoint` | src/color.h:29-31 | different pixels are written to disjoint bytes |

## Left out

**Outside this model**
- `camera.h`, `main.cpp` and `util.h` are not part of this model. They hold the render loop, scene set-up, the global random generator and constants.
- `image_reader::load` and the destructor are not modelled. They are file decoding and memory release. A loaded image is given as optional bytes, and `Valid` states what a successful load guarantees.
- `refract` is not modelled; no modelled code uses it.
- `sphere::get_uv` is not modelled: it computes with `acos` and `atan2`. Its `(u, v)` is a supplied function, `Numerics.sphereUV`.
- `sqrt` is abstract. Only its defining property is assumed, in `Numerics.Valid()`.

**Floating point and integer arithmetic**
- Reals are exact. NaN, rounding and signed infinities from division by zero are not modelled.
- `Aabbs.Hit` requires every direction component to be non-zero. The source then divides by zero and relies on IEEE infinities.
- `Vectors.UnitVector` and `Quads.MakeQuad` require a non-zero vector or non-parallel edges. The source divides by zero there.
- `Boxes.MakeBox` requires corners that differ on every axis, so that every face has spanning edges.
- `Colors.WriteColor` requires `samples != 0`.
- `static_cast<int>` of a floor in `checker::value` and `image::value` is modelled as exact truncation. 32-bit overflow of huge coordinates is not modelled.
- `Materials.ScatterMetal` requires a non-zero incoming direction, because `unit_vector` divides by its length.

**Object model**
- Shared pointers are not modelled: objects and materials are values. A list added to another list is a snapshot of its members and box at that time, so later changes to the inner list are not seen.
- Virtual dispatch is a match over `Hittable` and `Material`.
- `hittable` does not declare `bounding_box` or the `u`, `v` record fields. The model gives every object a box and every record `u` and `v`, as the overriding classes and the primitives use them.
- `Materials.Scatter` takes the record's `N` and `p` and the random unit vector as parameters instead of reading the record and calling the generator.
- `Boxes.MakeBox` builds its six `add` calls through `Boxes.ListOfSix` and `Boxes.AddFace`, one call per face, in the source's order.

**Stated weaker, or stated as a caveat**
- `Scene.ScanClosest` states that no member hits nearer and that the record is some member's hit, not which member wins a tie. For that, `Scene.ScanHit` follows the source's order: the last member that hits below `closest_t` wins.
- `Aabbs.ReferenceAgreesOnOrderedBoxes` holds only for boxes whose axes have `min <= max`. On the default (empty) box the two versions disagree (`Aabbs.ReferenceDiffersOnDefaultBox`), so the doc-comment's claim that the two versions are interchangeable holds only for ordered boxes.
- `Quads.QuadBoxCorners` states that the box holds `Q` and `Q + u + v` only. `Quads.QuadBoxMissesCorner` shows that it can miss `Q + u`, as the source's box is written.
- `Boxes.FaceInBox` covers the first five faces only. `Boxes.BottomFaceOutside` shows that the "bottom" face, which starts at `max[0]` and extends by `+dx`, lies outside the box.
