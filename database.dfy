/** The constant tables of `mockDatabase`: diseases with their associated
    genes, genes with tissue expression levels, and proteins. Each table is a
    map from the lookup key to an immutable record. Long texts are written as
    concatenations of shorter literals, which keeps the verifier's work on
    them small. */
module MockDatabase {
  import opened Text

  datatype DiseaseGene = DiseaseGene(
    symbol: string, name: string, description: string, chromosome: string,
    association: string, variants: seq<string>)

  datatype Disease = Disease(
    name: string, genes: seq<DiseaseGene>, description: string, prevalence: string,
    pathways: seq<string>)

  /** One `[tissue, expression]` entry of a gene's tissue object, in the
      object's insertion order. */
  datatype TissueLevel = TissueLevel(tissue: string, expression: int)

  datatype Gene = Gene(
    symbol: string, name: string, geneFunction: string, chromosome: string,
    length: string, protein: string, tissues: seq<TissueLevel>,
    pathways: seq<string>, diseases: seq<string>)

  datatype Protein = Protein(
    name: string, gene: string, length: string, structure: string,
    proteinFunction: string, pdbId: string, pathways: seq<string>)

  // ---------------------------------------------------------------------------
  // diseases

  const Alzheimer: Disease := Disease(
    "Alzheimer's Disease",
    [ DiseaseGene("APOE", "Apolipoprotein E",
        "Major genetic risk " + "factor for late-onset " + "Alzheimer's disease", "19", "Strong",
        ["\U{03B5}4 allele increases " + "risk 3-15 fold"]),
      DiseaseGene("PSEN1", "Presenilin 1",
        "Involved in processing " + "amyloid precursor " + "protein", "14", "Causative",
        ["Over 200 pathogenic " + "mutations identified"]),
      DiseaseGene("APP", "Amyloid Precursor Protein",
        "Precursor to amyloid-beta " + "peptide found in " + "plaques", "21", "Causative",
        ["Duplications and " + "point mutations"]),
      DiseaseGene("PSEN2", "Presenilin 2",
        "Similar function " + "to PSEN1 in APP " + "processing", "1", "Causative",
        ["Rare mutations in " + "early-onset cases"]),
      DiseaseGene("MAPT", "Microtubule Associated " + "Protein Tau",
        "Forms neurofibrillary " + "tangles in AD", "17", "Moderate",
        ["H1 haplotype associated " + "with increased risk"]) ],
    "Progressive neurodegenerat" + "ive disease affecting " + "memory and cognitive " + "function",
    "~50 million people " + "worldwide",
    ["Amyloid cascade", "Tau phosphorylation", "Neuroinflammation"])

  const BreastCancer: Disease := Disease(
    "Breast Cancer",
    [ DiseaseGene("BRCA1", "Breast Cancer Gene 1",
        "DNA repair protein, " + "tumor suppressor", "17", "Strong",
        ["~45-65% lifetime " + "risk with pathogenic " + "variants"]),
      DiseaseGene("BRCA2", "Breast Cancer Gene 2",
        "DNA repair, homologous " + "recombination", "13", "Strong",
        ["~40-55% lifetime " + "risk with pathogenic " + "variants"]),
      DiseaseGene("TP53", "Tumor Protein P53",
        "Cell cycle regulation " + "and apoptosis", "17", "Strong",
        ["Li-Fraumeni syndrome"]),
      DiseaseGene("PTEN", "Phosphatase and " + "Tensin Homolog",
        "Negative regulator " + "of AKT/PKB signaling", "10", "Moderate",
        ["Cowden syndrome"]) ],
    "Malignant tumor " + "originating from " + "breast tissue",
    "~2.3 million new " + "cases annually worldwide",
    ["DNA damage response", "Cell cycle control", "Hormone signaling"])

  const Diabetes: Disease := Disease(
    "Type 2 Diabetes",
    [ DiseaseGene("TCF7L2", "Transcription Factor " + "7 Like 2",
        "Wnt signaling pathway, " + "beta-cell function", "10", "Strong",
        ["Most significant " + "T2D susceptibility gene"]),
      DiseaseGene("PPARG", "Peroxisome Proliferator " + "Activated Receptor Gamma",
        "Adipocyte differentiation," + " insulin sensitivity", "3", "Moderate",
        ["P12A variant protective"]),
      DiseaseGene("KCNJ11", "Potassium Channel, " + "Inwardly Rectifying " + "Subfamily J Member 11",
        "Pancreatic beta-cell " + "insulin secretion", "11", "Moderate",
        ["E23K variant increases risk"]) ],
    "Metabolic disorder " + "characterized by " + "insulin resistance",
    "~537 million adults " + "worldwide",
    ["Insulin signaling", "Glucose metabolism", "Beta-cell function"])

  const Diseases: map<string, Disease> :=
    map["alzheimer" := Alzheimer, "breast cancer" := BreastCancer, "diabetes" := Diabetes]

  // ---------------------------------------------------------------------------
  // genes

  const Brca1: Gene := Gene(
    "BRCA1", "Breast Cancer Gene 1",
    "DNA damage repair " + "via homologous recombinati" + "on, tumor suppression",
    "17q21.31", "81,189 bp", "1,863 amino acids",
    [ TissueLevel("breast", 85), TissueLevel("ovary", 72), TissueLevel("prostate", 45),
      TissueLevel("pancreas", 38), TissueLevel("testis", 65), TissueLevel("thymus", 52),
      TissueLevel("uterus", 48), TissueLevel("brain", 25) ],
    ["DNA repair", "Cell cycle checkpoint", "Transcriptional regulation"],
    ["Breast cancer", "Ovarian cancer", "Prostate cancer"])

  const Tp53: Gene := Gene(
    "TP53", "Tumor Protein P53",
    "Cell cycle regulation, " + "apoptosis, DNA repair, " + "guardian of the " + "genome",
    "17p13.1", "19,149 bp", "393 amino acids",
    [ TissueLevel("colon", 78), TissueLevel("lung", 82), TissueLevel("brain", 68),
      TissueLevel("liver", 75), TissueLevel("kidney", 70), TissueLevel("heart", 55),
      TissueLevel("muscle", 48), TissueLevel("skin", 62) ],
    ["Apoptosis", "Cell cycle arrest", "DNA damage response", "Senescence"],
    ["Li-Fraumeni syndrome", "Various cancers"])

  const Apoe: Gene := Gene(
    "APOE", "Apolipoprotein E",
    "Lipid transport, " + "cholesterol metabolism, " + "neuronal repair",
    "19q13.32", "3,597 bp", "317 amino acids",
    [ TissueLevel("liver", 95), TissueLevel("brain", 88), TissueLevel("adrenal", 62),
      TissueLevel("kidney", 45), TissueLevel("spleen", 38), TissueLevel("lung", 35),
      TissueLevel("heart", 42), TissueLevel("muscle", 28) ],
    ["Lipid metabolism", "Cholesterol transport", "Neuronal maintenance"],
    ["Alzheimer's disease", "Cardiovascular disease"])

  const Egfr: Gene := Gene(
    "EGFR", "Epidermal Growth " + "Factor Receptor",
    "Cell proliferation, " + "differentiation, " + "receptor tyrosine " + "kinase",
    "7p11.2", "188,307 bp", "1,210 amino acids",
    [ TissueLevel("skin", 92), TissueLevel("lung", 78), TissueLevel("liver", 65),
      TissueLevel("kidney", 72), TissueLevel("brain", 58), TissueLevel("breast", 68),
      TissueLevel("colon", 70), TissueLevel("placenta", 85) ],
    ["MAPK/ERK signaling", "PI3K/AKT pathway", "JAK/STAT signaling"],
    ["Lung cancer", "Glioblastoma", "Colorectal cancer"])

  const Genes: map<string, Gene> :=
    map["BRCA1" := Brca1, "TP53" := Tp53, "APOE" := Apoe, "EGFR" := Egfr]

  // ---------------------------------------------------------------------------
  // proteins

  const Insulin: Protein := Protein(
    "Insulin", "INS", "51" + " amino acids (mature form)",
    "Two chains (A: 21 " + "aa, B: 30 aa) connected " + "by disulfide bonds",
    "Glucose uptake regulation," + " metabolic homeostasis", "1MSO",
    ["Glucose metabolism", "PI3K/AKT signaling"])

  const Glucagon: Protein := Protein(
    "Glucagon", "GCG", "29" + " amino acids",
    "Single alpha-helical " + "peptide",
    "Glucose production, " + "glycogen breakdown", "1GCN",
    ["Gluconeogenesis", "Glycogenolysis"])

  const P53: Protein := Protein(
    "Tumor Protein p53", "TP53", "393" + " amino acids",
    "Tetramer with DNA-binding " + "domain, oligomerization " + "domain",
    "Transcription factor, " + "cell cycle control, " + "apoptosis", "1TSR",
    ["Apoptosis", "DNA damage response", "Cell cycle arrest"])

  const Proteins: map<string, Protein> :=
    map["insulin" := Insulin, "glucagon" := Glucagon, "p53" := P53]

  /** The whole `mockDatabase` object the engine consults. */
  datatype Database = Database(
    diseases: map<string, Disease>, genes: map<string, Gene>, proteins: map<string, Protein>)

  const Mock: Database := Database(Diseases, Genes, Proteins)

  // ---------------------------------------------------------------------------
  // What the handlers rely on

  /** The disease keys are exactly these three, so `cancer` and `parkinson`
      (which the disease extractor can return) are not keys. */
  lemma DiseaseKeys()
    ensures Diseases.Keys == {"alzheimer", "breast cancer", "diabetes"}
    ensures "cancer" !in Diseases && "parkinson" !in Diseases
  {
  }

  function Symbols(genes: seq<DiseaseGene>): (r: seq<string>)
    ensures |r| == |genes| && forall k :: 0 <= k < |genes| ==> r[k] == genes[k].symbol
  {
    if genes == [] then [] else [genes[0].symbol] + Symbols(genes[1..])
  }

  /** The Alzheimer record lists five genes, in this order. */
  lemma AlzheimerGenes()
    ensures Symbols(Diseases["alzheimer"].genes) == ["APOE", "PSEN1", "APP", "PSEN2", "MAPT"]
  {
  }

  predicate KnownAssociation(a: string)
  {
    a == "Strong" || a == "Causative" || a == "Moderate"
  }

  /** Every stored association tier is Strong, Causative or Moderate. */
  lemma AssociationsKnown()
    ensures forall key :: key in Diseases ==> AllKnown(Diseases[key].genes)
  {
    assert AllKnown(Alzheimer.genes);
    assert AllKnown(BreastCancer.genes);
    assert AllKnown(Diabetes.genes);
  }

  predicate AllKnown(genes: seq<DiseaseGene>)
  {
    forall k :: 0 <= k < |genes| ==> KnownAssociation(genes[k].association)
  }

  /** The gene keys are exactly these four. */
  lemma GeneKeys()
    ensures Genes.Keys == {"BRCA1", "TP53", "APOE", "EGFR"}
  {
  }

  /** Each gene is stored under its own symbol. */
  lemma GeneSymbols()
    ensures forall sym :: sym in Genes ==> Genes[sym].symbol == sym
  {
  }

  /** Tissue names and expression values are pairwise distinct. */
  predicate DistinctTissues(t: seq<TissueLevel>)
  {
    forall a, b :: 0 <= a < b < |t| ==> t[a].tissue != t[b].tissue && t[a].expression != t[b].expression
  }

  /** Each gene lists eight tissues, with pairwise distinct names and values. */
  lemma TissuesDistinct()
    ensures forall sym :: sym in Genes ==> |Genes[sym].tissues| == 8 && DistinctTissues(Genes[sym].tissues)
  {
    Brca1Tissues();
    Tp53Tissues();
    ApoeTissues();
    EgfrTissues();
  }

  lemma Brca1Tissues() ensures DistinctTissues(Brca1.tissues) { }
  lemma Tp53Tissues() ensures DistinctTissues(Tp53.tissues) { }
  lemma ApoeTissues() ensures DistinctTissues(Apoe.tissues) { }
  lemma EgfrTissues() ensures DistinctTissues(Egfr.tissues) { }

  /** Breast at 85 and brain at 25 are listed, every value lies between
      them, and names and values are pairwise distinct. */
  predicate Brca1Profile(t: seq<TissueLevel>)
  {
    && TissueLevel("breast", 85) in t && TissueLevel("brain", 25) in t
    && (forall k :: 0 <= k < |t| ==> 25 <= t[k].expression <= 85)
    && DistinctTissues(t)
  }

  /** BRCA1 is expressed most in breast (85) and least in brain (25). */
  lemma Brca1Extremes()
    ensures Brca1Profile(Brca1.tissues)
  {
    assert Brca1.tissues[0] == TissueLevel("breast", 85);
    assert Brca1.tissues[7] == TissueLevel("brain", 25);
    Brca1Tissues();
  }

  /** The protein keys are exactly these three. */
  lemma ProteinKeys()
    ensures Proteins.Keys == {"insulin", "glucagon", "p53"}
  {
  }

  /** `parseInt` of the stored lengths reads their leading integers. */
  lemma InsulinLength()
    ensures ParseInt(Proteins["insulin"].length) == Some(51)
  {
    ParseIntDigitsThen("51", " amino acids (mature form)");
    assert DigitsValue("51", 0, 2) == 51;
  }

  lemma GlucagonLength()
    ensures ParseInt(Proteins["glucagon"].length) == Some(29)
  {
    ParseIntDigitsThen("29", " amino acids");
    assert DigitsValue("29", 0, 2) == 29;
  }

  lemma P53Length()
    ensures ParseInt(Proteins["p53"].length) == Some(393)
  {
    ParseIntDigitsThen("393", " amino acids");
    assert DigitsValue("393", 0, 3) == 393;
  }
}
