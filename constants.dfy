/**
 * module_04/constants.py: credentials, service URLs, the endpoint tags and the
 * table of selectable language models (`AVAILABLE_LMs`).
 */
module Constants {

  const HfToken: string := "<YOUR KEY>"
  const OpenAiToken: string := "<YOUR KEY>"

  /** Request headers for the hosted inference service: a bearer token. */
  const Headers: map<string, string> := map["Authorization" := "Bearer " + HfToken]

  const EmbModelId: string := "pinecone/mpnet-retriever-discourse"
  const FeatureExtractionPrefix: string := "https://api-inference.huggingface.co/pipeline/feature-extraction/"
  const EmbApiUrl: string := FeatureExtractionPrefix + EmbModelId

  const QaModelId: string := "deepset/roberta-base-squad2"

  /** The endpoint tags: which adapter answers for a model. */
  const HfQaEndpoint: string := "HF-QA"
  const HfLmEndpoint: string := "HF-LM"
  const OpenAiEndpoint: string := "OPENAI-LM"
  const LocalOllamaEndpoint: string := "OLLAMA"

  /** `AVAILABLE_LMs['models']`; the gemma row is commented out in the source. */
  const Models: seq<string> := [
    "deepset/roberta-base-squad2",
    "Intel/dynamic_tinybert",
    "Local-LLAMA-3.1:8b",
    "OpenAI-GPT4o-mini"
  ]

  /** `AVAILABLE_LMs['endpoints']`, row by row with `Models`. */
  const Endpoints: seq<string> := [
    HfQaEndpoint,
    HfQaEndpoint,
    LocalOllamaEndpoint,
    OpenAiEndpoint
  ]

  const EndpointTags: seq<string> := [HfQaEndpoint, HfLmEndpoint, OpenAiEndpoint, LocalOllamaEndpoint]

  predicate Distinct(s: seq<string>) {
    forall i, j :: 0 <= i < j < |s| ==> s[i] != s[j]
  }

  /** The two columns have four rows each, so row i pairs `Models[i]` with `Endpoints[i]`. */
  lemma RegistryShape()
    ensures |Models| == |Endpoints| == 4
  {
  }

  /** The four tags are pairwise different and every row carries one of them. */
  lemma EndpointTagsWellFormed()
    ensures Distinct(EndpointTags)
    ensures forall i :: 0 <= i < |Endpoints| ==> Endpoints[i] in EndpointTags
  {
  }

  /** No two rows share a model name, so a first-match lookup finds the only match. */
  lemma ModelNamesDistinct()
    ensures Distinct(Models)
  {
  }

  /** The HF-LM tag is in no row: the shipped table never selects that adapter. */
  lemma NoHfLmRow()
    ensures HfLmEndpoint !in Endpoints
  {
  }

  /** The derived strings: the bearer header and the embedding URL. */
  lemma DerivedStrings()
    ensures Headers.Keys == {"Authorization"}
    ensures Headers["Authorization"][..7] == "Bearer " && Headers["Authorization"][7..] == HfToken
    ensures EmbApiUrl[..|FeatureExtractionPrefix|] == FeatureExtractionPrefix
    ensures EmbApiUrl[|FeatureExtractionPrefix|..] == EmbModelId
  {
  }

  /** The QA model constant names the first row of the table. */
  lemma QaModelIsFirstRow()
    ensures QaModelId == Models[0] && Endpoints[0] == HfQaEndpoint
  {
  }
}
