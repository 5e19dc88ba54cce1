/** The records the inference host returns, as the components see them. */
module OllamaTypes {

  datatype Option<T> = None | Some(value: T)

  /** An installed model, one entry of the host's `api/tags` list. */
  datatype Model = Model(name: string, digest: string)

  /** A model the host currently has loaded, one entry of its `api/ps` list. */
  datatype RunningModel = RunningModel(name: string)
}
