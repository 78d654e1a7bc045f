/** The language-model client, seen only through what its calls return. */
module Ollama {
  import opened Bytes
  import opened Wrappers

  /** An embedding vector: float32 components kept as their bit patterns, with no
      arithmetic on them. */
  datatype Vector = Vector(components: seq<bv32>)

  /** `Embeddings(text)` and `Complete(prompt)` of the Ollama client; an error carries
      the text of its `Error()`. */
  datatype Llm = Llm(
    embed: seq<byte> -> Result<Vector>,
    complete: seq<byte> -> Result<seq<byte>>)
}
