# Starfield and contact form: a Dafny model

This project models the two stateful parts of a personal portfolio web app.

The first is the animated **starfield** background, `Starfield.tsx`:
- 200 stars in four parallax layers, built by `makeStar` and `createStars`;
- the per-frame horizontal drift of every star, with its wrap from the right edge back to the left;
- the parallax offset and the twinkle factor of the paint pass;
- the burst of 15 particles that a click or a tap creates;
- the per-frame integration and decay of the particles, and the filter that drops the invisible ones;
- the pointer-move, click and resize handlers that change the simulation state.

The second is the **contact form**, `ContactForm.tsx`:
- the single-field update done by `handleInputChange`;
- the validation: every field present, and the email matching `^[^\s@]+@[^\s@]+\.[^\s@]+$`;
- the submit state machine: the `isSubmitting` flag, rejection, sending through the mail service, and the `mailto:` fallback;
- the subject and body strings of the fallback.

Module layout:
- `Sampling`: the `randomBetween` helper and the colour palette.
- `Stars`: the star factory, the drift, the parallax and twinkle, and the `createStars` loop.
- `Particles`: burst particles, their update and the survivor filter.
- `Starfield`: the component's state as a class `Simulation`, whose methods are the mount, one animation frame (`Tick`) and the three handlers.
- `ContactForm`: the form state as a class `Form`, plus the validation and fallback-string functions.
- `Optional`: the `Option` datatype.

Every `Math.random()` draw becomes an explicit input:
- Its type is `Uniform`, a real in [0, 1).
- The star and burst factories take a record of the draws they consume, in the order they consume them.
- The cosine and sine of a particle's launch angle come in as a unit vector (`Direction`).
- The result of `emailjs.send` comes in as a boolean.

Numbers are mathematical reals, not IEEE doubles.

## Model

| member | source | states |
|---|---|---|
| Sampling.RandomBetween | src/components/Starfield.tsx:36-38 | For lo <= hi the value lies in [lo, hi), or equals lo when the range is empty. For reversed bounds it lies in (hi, lo]. |
| Sampling.RandomBetweenReachesRange | src/components/Starfield.tsx:36-38 | Every value of [lo, hi) (and lo for an empty range) is produced by some draw, so the bound above is exact. |
| Sampling.ColorIndex | src/components/Starfield.tsx:49 | The floor of randomBetween(0, COLORS.length) is always a valid palette index. |
| Sampling.ColorIndexSlice | src/components/Starfield.tsx:49 | Colour i is chosen exactly when the draw falls in [i/5, (i+1)/5). Each colour has an equal share of the draws. |
| Sampling.PickColor | src/components/Starfield.tsx:28-34 | The chosen colour is one of the five palette entries. |
| Stars.LayerBiasIncreases | src/components/Starfield.tsx:44-46 | Within a layer the radius range is non-empty. Deeper layers have strictly larger radius bounds and strictly higher speed. |
| Stars.MakeStar | src/components/Starfield.tsx:40-51 | x is in [0, width) and y in [0, height). r is in the layer's radius range, alpha in [0.4, 1) and the phase in [0, 2π). Speed is 0.1 + 0.05·layer, the layer is kept, and the colour comes from the palette. |
| Stars.MakeStarWellFormed | src/components/Starfield.tsx:40-51 | A fresh star satisfies the star invariant. That invariant is the attribute bands of makeStar, x within [-4r, width + 4r] and y in [0, height). |
| Stars.DriftStar | src/components/Starfield.tsx:139-143 | A drift changes only x and y. |
| Stars.DriftStarMoves | src/components/Starfield.tsx:139-143 | A star whose advanced x does not pass width + 4r moves by its speed and keeps y. A star whose advanced x passes it restarts at x = -4r with a fresh y in [0, height). |
| Stars.DriftStaysOnConveyor | src/components/Starfield.tsx:139-143 | After a drift x never exceeds width + 4r. A star that started at or right of -4r stays there. |
| Stars.DriftPreservesWellFormed | src/components/Starfield.tsx:139-143 | A drift preserves the star invariant, so stars never escape the band [-4r, width + 4r]. |
| Stars.ParallaxZeroIffCentred | src/components/Starfield.tsx:114-117 | The parallax offset of any layer is zero exactly when the pointer is at the viewport centre (both directions). |
| Stars.ParallaxScalesWithDepth | src/components/Starfield.tsx:114-117 | Each offset component is the pointer displacement from the centre times 0.008 times (layer + 1). |
| Stars.TwinkleAlpha | src/components/Starfield.tsx:119-120 | The painted alpha lies in [0, alpha]. It reaches the star's alpha at sine = 1 and zero at sine = -1. |
| Stars.CreateStars | src/components/Starfield.tsx:63-71 | Exactly 200 stars are built, star k by makeStar for layer k / 50 from draw k. All lie inside the viewport, and together they form a well-formed layered population. |
| Stars.CountInLayerPrefix | src/components/Starfield.tsx:65-68 | In the layer-ordered array, each layer's count in a prefix is the part of its block of 50 that the prefix covers. |
| Stars.PopulationLayerSizes | src/components/Starfield.tsx:65-68 | Each of the four layers holds exactly STAR_COUNT / LAYERS = 50 stars. |
| Stars.PopulationLayersAscend | src/components/Starfield.tsx:65-68 | Layers never decrease along the array, and every layer is below LAYERS. This is the back-to-front paint order. |
| Particles.MakeParticle | src/components/Starfield.tsx:77-88 | A particle starts at the click point with alpha 1 and life 0. Its radius is in [1, 3) and its colour comes from the palette. Its speed, the length of (vx, vy), is in [1, 3). |
| Particles.StepDecays | src/components/Starfield.tsx:150-155 | One frame moves the particle by its velocity, multiplies r by 0.95 and alpha by 0.92, and adds one to life. Neither r nor alpha grows. |
| Particles.Pow | src/components/Starfield.tsx:153-154 | Repeated decay factors in [0, 1] stay in [0, 1]. |
| Particles.StepNAttributes | src/components/Starfield.tsx:150-155 | After k frames the position is start + k·velocity, r is r·0.95^k, alpha is alpha·0.92^k and life has grown by k. Velocity and colour are unchanged. |
| Particles.PowAntitone | src/components/Starfield.tsx:153-154 | A decay factor in [0, 1] never lets a later power exceed an earlier one, so r and alpha only shrink over frames. |
| Particles.OpacityThreshold | src/components/Starfield.tsx:154-157 | 0.92^42 is still above the 0.03 threshold, and 0.92^43 is at or below it. |
| Particles.RadiusThreshold | src/components/Starfield.tsx:153-157 | 0.95^42 is above the 0.1 threshold, so a radius of at least 1 still passes the test after 42 frames. |
| Particles.AlphaExpired | src/components/Starfield.tsx:154-157 | From frame 43 on, 0.92^k <= 0.03, so the alpha test fails. |
| Particles.MakeParticleConsistent | src/components/Starfield.tsx:77-88 | A fresh particle satisfies the particle invariant (alpha = 0.92^life, 0 <= r < 3, speed in [1, 3), palette colour) and is visible. |
| Particles.StepPreservesConsistent | src/components/Starfield.tsx:150-155 | One frame preserves the particle invariant. |
| Particles.LiveParticleIsYoung | src/components/Starfield.tsx:157 | A consistent particle that passes the visibility test is less than 43 frames old. |
| Particles.BurstVisible | src/components/Starfield.tsx:77-88 | A particle born with alpha 1 and radius at least 1 still passes the visibility test after any k < 43 frames. |
| Particles.BurstLifetime | src/components/Starfield.tsx:77-88 | A particle of a burst is visible k frames after the click exactly when k < 43. Opacity decides this, not the radius. |
| Particles.KeptIndicesExact | src/components/Starfield.tsx:150-177 | The indices kept by the frame loop are strictly increasing. An index is kept exactly when the stepped particle passes alpha > 0.03 and r > 0.1. |
| Particles.SurvivorsFilter | src/components/Starfield.tsx:147-177 | The new particle array holds exactly the stepped particles that pass the visibility test, in their original order. |
| Particles.SurvivorsShrink | src/components/Starfield.tsx:147-177 | The live array never grows during a frame, and every particle left in it is visible. |
| Particles.BuildBurst | src/components/Starfield.tsx:75-89 | The loop builds count particles, particle i from draw i, all at the click point, alpha 1, life 0, radius in [1, 3). |
| Starfield.EventPoint | src/components/Starfield.tsx:186-192 | An event carries a point exactly when it is a mouse event or a touch event with at least one touch. The point is the first touch, or else the client coordinates. |
| Starfield.Simulation.Mount | src/components/Starfield.tsx:57-60 | The pointer starts at the viewport centre, so every layer's parallax offset is zero. The size is the viewport's, there are no particles, and the 200 stars are those createStars builds. |
| Starfield.Simulation.Tick | src/components/Starfield.tsx:109-180 | One frame drifts every star by its drift rule and replaces the particles by the survivors of one step. The size and the pointer are unchanged, and the invariant is kept. |
| Starfield.Simulation.DriftStars | src/components/Starfield.tsx:138-144 | The drift loop replaces star k by its drifted self and keeps the star count and the population invariant. |
| Starfield.Simulation.UpdateParticles | src/components/Starfield.tsx:146-177 | The particle loop leaves exactly the survivors of one step, never more particles than before, and keeps every live particle consistent. |
| Starfield.Simulation.Move | src/components/Starfield.tsx:185-193 | The pointer moves to the event's point. An event without one, a touch event with no touches, leaves it unchanged. |
| Starfield.Simulation.SpawnBurst | src/components/Starfield.tsx:74-91 | The existing particles are kept as a prefix, followed by exactly count new particles built from the draws at the click point. |
| Starfield.Simulation.Click | src/components/Starfield.tsx:199-212 | A click or tap with a point appends a burst of 15 particles there. One without a point changes nothing. |
| Starfield.Simulation.Resize | src/components/Starfield.tsx:218-224 | The size becomes the new viewport's and the stars are rebuilt for it. The particles and the pointer are untouched. |
| ContactForm.UpdateField | src/components/ContactForm.tsx:46-51 | The field named by the input is set to its value and every other field is kept. An unknown name changes none of the three fields. |
| ContactForm.CountOf | src/components/ContactForm.tsx:69 | The count of a character is zero exactly when it does not occur. |
| ContactForm.IndexOf | src/components/ContactForm.tsx:69 | The result is the first occurrence of the character, or the length when it does not occur. |
| ContactForm.CountOfConcat | src/components/ContactForm.tsx:69 | Occurrence counts add over concatenation. |
| ContactForm.SingleOccurrence | src/components/ContactForm.tsx:69 | A character found at exactly one position has count one, and that position is its first index. |
| ContactForm.CountOneIsFirst | src/components/ContactForm.tsx:69 | When a character occurs once, any position holding it is its first index. |
| ContactForm.EmailCheckSound | src/components/ContactForm.tsx:69-70 | An address accepted by the form's check matches the regular expression. |
| ContactForm.EmailCheckComplete | src/components/ContactForm.tsx:69-70 | An address matching the regular expression is accepted by the check. |
| ContactForm.EmailCheckMatchesRegex | src/components/ContactForm.tsx:69-70 | The check and the regular expression accept exactly the same addresses. |
| ContactForm.CheckSubmission | src/components/ContactForm.tsx:59-77 | The form passes exactly when all three fields are non-empty and the email is valid. The missing-fields message appears exactly when a field is empty. Any other rejection is the invalid-email message. |
| ContactForm.EmptyEmailReportsMissing | src/components/ContactForm.tsx:59-66 | An empty email is not valid, and it is reported as a missing field, not as an invalid address. |
| ContactForm.BlankFieldsAreNotMissing | src/components/ContactForm.tsx:59-77 | The presence test does not trim. Any non-empty fields whose email is only whitespace pass it and are rejected as an invalid email. |
| ContactForm.FallbackSubject | src/components/ContactForm.tsx:107 | The subject is "Portfolio Contact from " followed by the name, unchanged. |
| ContactForm.StripPrefixOf | src/components/ContactForm.tsx:108 | Stripping a prefix from a string that starts with it returns the rest. |
| ContactForm.SplitLineOf | src/components/ContactForm.tsx:108 | A line with no line break, followed by a tail that starts with one, splits exactly there. |
| ContactForm.FallbackBodyRoundTrip | src/components/ContactForm.tsx:108 | The fallback body can be parsed back into the form data whenever name and email contain no line break. |
| ContactForm.ValidEmailHasNoLineBreak | src/components/ContactForm.tsx:69-70 | A valid email never contains a line break, so the body round trip needs only a single-line name. |
| ContactForm.Form.constructor | src/components/ContactForm.tsx:16-21 | The form starts with three empty fields and the flag lowered. |
| ContactForm.Form.InputChange | src/components/ContactForm.tsx:46-51 | The form data becomes the single-field update of the old data. |
| ContactForm.Form.Submit | src/components/ContactForm.tsx:53-119 | The flag is raised and then lowered on every path. A rejected form keeps its data and reports the validation message. A successful send passes the four template parameters and clears the form. A failed send opens a mailto link with the fallback subject and body and keeps the data. |

## Left out

- Painting is not modelled: the canvas calls, the radial gradients and the `toFixed(2)` formatting of alpha. The model stops at the values painted: the parallax offset and the twinkle alpha.
- Frame scheduling is not modelled: `requestAnimationFrame`, the unmount cleanup, and the adding and removing of listeners. `Tick` is one frame and each handler is one method call.
- `Math.random()` becomes an input in [0, 1), and `Math.cos` and `Math.sin` of the launch angle become a unit vector, so the uniform distribution of the angle is not modelled.
- Numbers are reals, so double rounding is not modelled. `Math.PI` is its decimal literal.
- The time argument of `animate` is not modelled: the twinkle takes the sine value as its input, so the periodicity in time is not captured.
- Stars.WellFormed allows x from -4r to width + 4r, not only from 0. The drift wraps a star to x = -4r, so the code lets x be negative.
- Stars.CreateStars takes six draws for every star. The source consumes them in the same order, so this only fixes the order of the draws.
- Starfield.Simulation.Click: a tap on a touch device fires both `touchstart` and the `click` the browser synthesises afterwards. The model treats each event as a separate call, so the double burst this can cause is not captured.
- ContactForm.Form.Submit: the method is atomic, so the wait at `await emailjs.send` is not modelled. During that wait only the submit button is disabled, and input changes can still run. Two effects are lost: edits made during the send are erased by the reset after a success, and a failed send builds the mailto subject and body from the form as it was at submit time.
- ContactForm.Form.Submit: emailjs itself is not modelled, and neither are its service, template and key strings, the toast texts other than the two validation messages, `console.error`, and assigning `window.location.href`. The send's outcome is an input, and the mailto link is kept as recipient, subject and body, without the `encodeURIComponent` escaping.
- ContactForm.UpdateField models the three named inputs only. The spread of an unknown input name into an extra property is not kept.
- `downloadResume` is left out as DOM input and output: it creates a link element, clicks it and removes it.
- The rest of ContactForm is not modelled: it is declarative rendering with no state to update. The other components and pages of the app are not part of this model.
