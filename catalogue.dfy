/**
 * The project record and the static catalogue the portfolio renders
 * (src/data/projects.ts). Optional record fields become `Option`.
 */
module Catalogue {

  datatype Option<+T> = None | Some(value: T)

  /** One gallery picture: an image path and its alternative text. */
  datatype Image = Image(src: string, alt: string)

  /** A video is either a local file or an embedded YouTube player. */
  datatype VideoKind = File | YouTube
  datatype Video = Video(kind: VideoKind, src: string)

  /** An embedded external viewer; `height` is optional and defaulted by the detail page. */
  datatype Iframe = Iframe(src: string, height: Option<int>)

  datatype Project = Project(
    id: string,
    title: string,
    year: string,
    category: string,
    tagline: string,
    tags: seq<string>,
    pdf: Option<string>,
    images: Option<seq<Image>>,
    modelGlb: Option<string>,
    video: Option<Video>,
    iframe: Option<Iframe>,
    highlights: seq<string>)

  /** Every project id in `ps` is different from every other. */
  predicate DistinctIds(ps: seq<Project>) {
    forall i, j :: 0 <= i < j < |ps| ==> ps[i].id != ps[j].id
  }

  /** The catalogue, in the order the site lists it. */
  const Projects: seq<Project> := [
    Project(
      "quantum",
      "Computational Quantum Mechanics — 3D Schrödinger Simulation",
      "2025",
      "Simulation / Computational Physics",
      "Interactive 3D wavepacket visualization exported from MATLAB and rendered in WebGL with frame scrubbing and threshold control.",
      ["MATLAB", "Numerics", "3D Visualization", "Quantum"],
      Some("/pdfs/Quantum.pdf"),
      None,
      None,
      None,
      Some(Iframe("https://marcus-unburned-unthroatily.ngrok-free.dev", Some(800))),
      [ "Implemented a time-accurate Schrödinger solver with Δt = 0.01 and validated behavior across multiple barrier geometries to quantify reflection/transmission response.",
        "Ran controlled case studies (e.g., barrier inputs (6.3, 5.3, 5.5) and (1.5, 10, 1.5)) and reported R/T outcomes (e.g., R = 0.224, T = 0.920; R = 0.031, T = 0.969) to ground the visuals in real physics, not just graphics.",
        "Exported the simulation timeline into a 120-frame interactive viewer with scrubbing + threshold control for interpretable probability-density exploration.",
        "Designed the experience around interpretability: parameter choice → wave behavior → measurable R/T → visualization controls that surface the underlying mechanics." ]),
    Project(
      "f35",
      "Corporate F35 — CAD + DFM (SLS)",
      "2024",
      "CAD / Manufacturing",
      "3D-printable aircraft model designed with tolerance stackups, join strategy, and manufacturing constraints in mind.",
      ["SolidWorks", "DFM", "SLS", "Tolerances"],
      Some("/pdfs/F35.pdf"),
      Some([ Image("/images/projects/f35/1.jpg", "ME2110 robot CAD"),
             Image("/images/projects/f35/2.jpg", "ME2110 robot assembly"),
             Image("/images/projects/f35/3.jpg", "ME2110 competition robot"),
             Image("/images/projects/f35/4.jpg", "ME2110 competition robot"),
             Image("/images/projects/f35/5.jpg", "ME2110 competition robot"),
             Image("/images/projects/f35/6.jpg", "ME2110 competition robot"),
             Image("/images/projects/f35/7.jpg", "ME2110 competition robot") ]),
      Some("/models/f35.glb"),
      None,
      None,
      [ "Designed for SLS manufacturability from day one with a minimum wall thickness of 0.4 in to improve robustness and print success.",
        "Engineered controlled radii (R0.04, R0.20) at transitions to reduce stress concentrations and improve assembly fit consistency.",
        "Locked in repeatable assembly geometry using fixed angles (112°, 12°) to prevent alignment drift and ‘close-enough’ mating errors.",
        "Treated the CAD like a product: DFM constraints first, geometry second—so the final model is buildable, not just CAD-pretty." ]),
    Project(
      "me2110",
      "ME2110 Competition Robot — “The Depresant”",
      "2024",
      "Robotics",
      "Mechanism-driven robot design optimized for reliability, repeatability, and fast iteration under competition constraints.",
      ["Mechanisms", "Pneumatics", "Integration", "Iteration"],
      Some("/pdfs/ME2110.pdf"),
      Some([ Image("/images/projects/me2110/1.jpg", "ME2110 robot CAD"),
             Image("/images/projects/me2110/2.jpg", "ME2110 robot assembly"),
             Image("/images/projects/me2110/3.jpg", "ME2110 competition robot"),
             Image("/images/projects/me2110/4.jpg", "ME2110 competition robot"),
             Image("/images/projects/me2110/5.jpg", "ME2110 competition robot"),
             Image("/images/projects/me2110/6.jpg", "ME2110 competition robot") ]),
      Some("/models/me2110.glb"),
      None,
      None,
      [ "Delivered competition-level performance on a strict $120 budget while meeting a tight 18\"×18\"×20\" envelope and completing the course in < 40 s.",
        "Proved reliability under match conditions with 78 points (Sprint 3) and 157 points (Final), reflecting strong iteration quality and system robustness.",
        "Designed for controlled repeatability with a target speed band of 1.5–2 ft/s, prioritizing stability over brittle ‘max speed’ behavior.",
        "Engineered rapid recovery + dependable operation: reset time < 4 minutes, sensor feedback targets ≤ 0.5 s, and safe operating limits (7–12 V).",
        "Optimized for reliable mechanisms and controllability with a weight target < 11 lb to reduce failure modes and maintain consistent performance." ]),
    Project(
      "fire-tornado",
      "Fire Tornado — Gap Ratio Experiment + Presentation",
      "2025",
      "Fluids / Experimental",
      "Experiment concept and presentation featuring a geometry sweep to connect enclosure gap ratio to swirl strength and flame behavior.",
      ["Fluids", "Experimental Design", "Modeling", "Presentation"],
      Some("/pdfs/FireTornado.pdf"),
      Some([ Image("/images/projects/fire-tornado/1.jpg", "Fire Tornado setup"),
             Image("/images/projects/fire-tornado/2.jpg", "Fire Tornado experiment"),
             Image("/images/projects/fire-tornado/3.jpg", "Fire Tornado results/presentation") ]),
      None,
      Some(Video(File, "/videos/fire-tornado.mp4")),
      None,
      [ "Designed an adjustable enclosure study to map gap-space offset to flame height, sweeping offsets across [5, 10, 15, 20, 25] cm for a clean parameter study.",
        "Used tracker video analysis for repeatable flame-height measurement (no eyeballing), enabling consistent comparisons across trials.",
        "Developed a clear hypothesis and validation plan: predicted a non-monotonic response and defined an optimal gap ratio φ to test experimentally.",
        "Framed the experiment with real-world relevance—how openings/gaps can amplify swirls in wildfire or built-environment scenarios—making results actionable." ]),
    Project(
      "autospotter",
      "AutoSpotter — Automatic Bench Press Spotting Device",
      "2023",
      "Product Design / Safety",
      "Concept-to-prototype engineering project exploring a safer solo bench-press experience via an automatic spotting mechanism.",
      ["Product Design", "Mechanisms", "Safety", "Prototyping", "DFM"],
      Some("/pdfs/AutoSpotter.pdf"),
      Some([ Image("/images/projects/autospotter/1.jpg", "AutoSpotter concept sketch"),
             Image("/images/projects/autospotter/2.jpg", "AutoSpotter mechanism detail"),
             Image("/images/projects/autospotter/3.jpg", "AutoSpotter prototype"),
             Image("/images/projects/autospotter/4.jpg", "AutoSpotter prototype"),
             Image("/images/projects/autospotter/5.jpg", "AutoSpotter prototype") ]),
      None,
      None,
      None,
      [ "Engineered around hard safety + usability constraints: activation ≤ 0.367 s, portable (no wall outlet), no cage-like add-ons, and adds ≤ 10 lb to the barbell.",
        "Designed to integrate with standard gym hardware (45 lb barbell) and full bench geometry (86.6\" length, 39.4\" width, 80.1\" height, 72.6\" bar height).",
        "Demonstrated rapid-response feasibility: pneumatic concept achieved ~15 ms actuation and reached ~54.5\" to catch/support the bar during failure scenarios.",
        "Validated through prototyping (not just CAD): clip-on-crutch concept achieved 4/4 repeatability, 72% feasibility, and 75% effectiveness in test evaluation.",
        "Targeted real adoption by holding the product to a practical cost ceiling (< $500) while addressing a safety problem linked to ~6,000 injuries/year." ]),
    Project(
      "carbon-nano",
      "Carbon Nanomaterials as Functional Fillers in Polymer Scaffolds",
      "2025",
      "Research / Biomaterials",
      "Literature synthesis on CNT/graphene (GO/rGO) polymer scaffolds for bone & osteochondral tissue engineering, linking processing to device-level metrics.",
      ["CNT", "Graphene", "Biomaterials", "Literature Review", "Tissue Engineering"],
      Some("/pdfs/CarbonNano.pdf"),
      None,
      None,
      None,
      None,
      [ "Synthesized key conduction thresholds that drive design: CNT percolation often occurs below 1 wt%, and graphene-polymer systems report percolation as low as ~0.3 vol%.",
        "Mapped literature to device-level electrical performance with typical scaffold conductivities spanning 10⁻⁶ to 10⁻² S/cm—sufficient for clinically relevant stimulation ranges.",
        "Extracted sensing implications: reported piezoresistive gauge factors can reach tens to hundreds, framing scaffolds as self-monitoring implants rather than passive structures.",
        "Anchored mechanical gains with hard metrics: 0.5 wt% rGO in PCL scaffolds shows ~185% higher compressive strength and ~150% higher modulus vs neat PCL.",
        "Emphasized translational realism by highlighting why many strategies target ‘just above percolation’ to balance conductivity, reinforcement, and cytocompatibility while minimizing toxicity risk." ])
  ]

  /** The id column of the catalogue, in catalogue order; `CatalogueIdsDistinct` ties it to `Projects`. */
  const CatalogueIds: seq<string> := ["quantum", "f35", "me2110", "fire-tornado", "autospotter", "carbon-nano"]

  lemma CatalogueIdListDistinct()
    ensures forall i, j :: 0 <= i < j < |CatalogueIds| ==> CatalogueIds[i] != CatalogueIds[j]
  {
    assert CatalogueIds[0][0] == 'q' && CatalogueIds[1][0] == 'f' && CatalogueIds[2][0] == 'm';
    assert CatalogueIds[3][0] == 'f' && CatalogueIds[4][0] == 'a' && CatalogueIds[5][0] == 'c';
    assert |CatalogueIds[1]| == 3 && |CatalogueIds[3]| == 12;
  }

  /** The catalogue's ids are pairwise distinct, so an id names one project. */
  lemma CatalogueIdsDistinct()
    ensures |Projects| == |CatalogueIds| == 6
    ensures forall k :: 0 <= k < |Projects| ==> Projects[k].id == CatalogueIds[k]
    ensures DistinctIds(Projects)
  {
    assert forall k :: 0 <= k < |Projects| ==> Projects[k].id == CatalogueIds[k];
    CatalogueIdListDistinct();
  }
}
