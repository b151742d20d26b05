/** The key of an entry in the attachment map (internal/app/gpu.go:1367-1369). */
module Sessions {
  datatype SessionKey = SessionKey(model: string, device: int, client: string)
}
