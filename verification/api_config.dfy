/** Client configuration (`config/api.ts`). */
module ApiConfig {

  /** Development server the client talks to unless told otherwise. */
  const BaseUrl := "http://localhost:5000"

  /** Path of the prediction endpoint. */
  const PredictEndpoint := "/predict"

  /** Milliseconds before a pending request is aborted. */
  const TimeoutMs: nat := 30000

  /** `getApiBaseUrl()`: no platform-specific choice is made. */
  function ApiBaseUrl(): string {
    BaseUrl
  }
}
