/** Facts that tie the components together: the three copies of the size
    table agree, the two status views report the storage the model list
    reports, and each suggested model is classified into the tab it is
    suggested under. */
module Consistency {
  import opened Text
  import opened ArrayOps
  import opened OllamaTypes
  import ModelList
  import ModelInstaller
  import SystemStatus
  import CompactSystemStatus

  /** The three copies of `getModelSize` agree on every name. */
  lemma SizeCopiesAgree(modelName: string)
    ensures SystemStatus.ModelSize(modelName) == ModelList.ModelSize(modelName)
    ensures CompactSystemStatus.ModelSize(modelName) == ModelList.ModelSize(modelName)
  {
  }

  /** Sums of pointwise-equal terms are equal. */
  lemma {:induction false} SumsAgree<T>(s: seq<T>, f: T -> nat, g: T -> nat)
    requires forall i | 0 <= i < |s| :: f(s[i]) == g(s[i])
    ensures Sum(s, f) == Sum(s, g)
  {
    if s != [] {
      SumsAgree(s[1..], f, g);
    }
  }

  /** Both status views show the storage total the model list shows. */
  lemma StorageAgrees(models: seq<Model>)
    ensures SystemStatus.TotalStorage(models) == ModelList.TotalSpaceUsed(models)
    ensures CompactSystemStatus.TotalStorage(models) == ModelList.TotalSpaceUsed(models)
  {
    ModelList.TotalSpaceIsSumOfAll(models);
    forall i | 0 <= i < |models|
      ensures SystemStatus.ModelSize(models[i].name) == ModelList.ModelSize(models[i].name)
      ensures CompactSystemStatus.ModelSize(models[i].name) == ModelList.ModelSize(models[i].name)
    {
      SizeCopiesAgree(models[i].name);
    }
    SumsAgree(models, (m: Model) => SystemStatus.ModelSize(m.name), (m: Model) => ModelList.ModelSize(m.name));
    SumsAgree(models, (m: Model) => CompactSystemStatus.ModelSize(m.name), (m: Model) => ModelList.ModelSize(m.name));
  }

  /** A name without upper-case ASCII letters is its own lower case. */
  lemma {:induction false} LowerOfLower(name: string)
    requires forall i | 0 <= i < |name| :: !('A' <= name[i] <= 'Z')
    ensures ToLower(name) == name
  {
  }

  /** A lower-case name without 'v' and missing a letter of "embed" is a chat model. */
  lemma ChatWhen(name: string, k: nat)
    requires forall i | 0 <= i < |name| :: !('A' <= name[i] <= 'Z')
    requires 'v' !in name && k < 5 && "embed"[k] !in name
    ensures ModelList.GetModelType(name) == ModelList.Chat
  {
    LowerOfLower(name);
    NotContainsMissingChar(name, "llava", 3);
    NotContainsMissingChar(name, "vision", 0);
    NotContainsMissingChar(name, "minicpm-v", 8);
    NotContainsMissingChar(name, "embed", k);
  }

  /** A lower-case name holding a vision keyword is a vision model. */
  lemma VisionWhen(name: string, keyword: string, at: nat)
    requires forall i | 0 <= i < |name| :: !('A' <= name[i] <= 'Z')
    requires keyword in ["llava", "vision", "minicpm-v"] && OccursAt(name, keyword, at)
    ensures ModelList.GetModelType(name) == ModelList.Vision
  {
    LowerOfLower(name);
  }

  /** A lower-case name without 'v' holding "embed" is an embedding model. */
  lemma EmbeddingsWhen(name: string, at: nat)
    requires forall i | 0 <= i < |name| :: !('A' <= name[i] <= 'Z')
    requires 'v' !in name && OccursAt(name, "embed", at)
    ensures ModelList.GetModelType(name) == ModelList.Embeddings
  {
    LowerOfLower(name);
    NotContainsMissingChar(name, "llava", 3);
    NotContainsMissingChar(name, "vision", 0);
    NotContainsMissingChar(name, "minicpm-v", 8);
  }

  /** Every suggested chat model is classified as a chat model once installed. */
  lemma ChatSuggestionsAreChat()
    ensures forall s | s in ModelInstaller.SUGGESTED_CHAT_MODELS :: ModelList.GetModelType(s) == ModelList.Chat
  {
    forall name | name in ModelInstaller.SUGGESTED_CHAT_MODELS
      ensures ModelList.GetModelType(name) == ModelList.Chat
    {
      ChatWhen(name, if name == "deepseek-r1:7b" then 1 else 2);
    }
  }

  /** Every suggested vision model is classified as a vision model once installed. */
  lemma VisionSuggestionsAreVision()
    ensures forall s | s in ModelInstaller.SUGGESTED_VISION_MODELS :: ModelList.GetModelType(s) == ModelList.Vision
  {
    forall name | name in ModelInstaller.SUGGESTED_VISION_MODELS
      ensures ModelList.GetModelType(name) == ModelList.Vision
    {
      if name == "llava:7b" {
        VisionWhen(name, "llava", 0);
      } else if name == "minicpm-v:8b" {
        VisionWhen(name, "minicpm-v", 0);
      } else {
        assert name[9..15] == "vision";
        VisionWhen(name, "vision", 9);
      }
    }
  }

  /** Every suggested embedding model is classified as an embedding model once installed. */
  lemma EmbeddingSuggestionsAreEmbeddings()
    ensures forall s | s in ModelInstaller.SUGGESTED_EMBEDDING_MODELS :: ModelList.GetModelType(s) == ModelList.Embeddings
  {
    forall name | name in ModelInstaller.SUGGESTED_EMBEDDING_MODELS
      ensures ModelList.GetModelType(name) == ModelList.Embeddings
    {
      assert name[6..11] == "embed";
      EmbeddingsWhen(name, 6);
    }
  }
}
